/** The capability scan performed on each dequeued project: the
    `foreach` over its `ProjectCapability` items, which stops at the first
    `AspNetCore` (the `break`) or the first `WebAssembly` (the `return`). */
module Capabilities {

  /** What the scan of one project's items ends on. */
  datatype Match = AspNetCore | WebAssembly | NoMatch

  /** What a single capability item means to the classifier; other tags are ignored. */
  function TagOf(item: string): Match {
    if item == "AspNetCore" then AspNetCore
    else if item == "WebAssembly" then WebAssembly
    else NoMatch
  }

  /** What the scan ends on: the tag of the first item of `caps` that is
      `AspNetCore` or `WebAssembly`, or `NoMatch` when there is none. */
  function FirstMatch(caps: seq<string>): Match {
    if caps == [] then NoMatch
    else if TagOf(caps[0]) != NoMatch then TagOf(caps[0])
    else FirstMatch(caps[1..])
  }

  /** The scan ends on an item it reacts to exactly when there is one, and
      then on the first such item: later items are never looked at. */
  lemma {:induction false} FirstMatchIsFirst(caps: seq<string>)
    ensures var m := FirstMatch(caps);
      (m == NoMatch <==> forall i :: 0 <= i < |caps| ==> TagOf(caps[i]) == NoMatch) &&
      (m != NoMatch ==>
        exists i :: 0 <= i < |caps| && TagOf(caps[i]) == m &&
          forall j :: 0 <= j < i ==> TagOf(caps[j]) == NoMatch)
  {
    if caps != [] && TagOf(caps[0]) == NoMatch {
      FirstMatchIsFirst(caps[1..]);
      assert forall i :: 1 <= i < |caps| ==> caps[i] == caps[1..][i - 1];
      if FirstMatch(caps) != NoMatch {
        var i :| 0 <= i < |caps| - 1 && TagOf(caps[1..][i]) == FirstMatch(caps) &&
          forall j :: 0 <= j < i ==> TagOf(caps[1..][j]) == NoMatch;
        assert TagOf(caps[i + 1]) == FirstMatch(caps);
      }
    }
  }

  /** The `foreach` over a project's capability items, as a loop that stops
      at the first item it reacts to. */
  method ScanCapabilities(caps: seq<string>) returns (m: Match)
    ensures m == FirstMatch(caps)
    ensures m != NoMatch ==> exists i :: 0 <= i < |caps| && TagOf(caps[i]) == m
  {
    FirstMatchIsFirst(caps);
    var i := 0;
    while i < |caps|
      invariant 0 <= i <= |caps|
      invariant FirstMatch(caps) == FirstMatch(caps[i..])
    {
      var item := caps[i];
      if item == "AspNetCore" {
        return AspNetCore;
      } else if item == "WebAssembly" {
        return WebAssembly;
      }
      assert caps[i + 1..] == caps[i..][1..];
      i := i + 1;
    }
    return NoMatch;
  }
}

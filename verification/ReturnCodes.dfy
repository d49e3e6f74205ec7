/** How the codes of a job's streams become the one that the dispatcher reads. */
module ReturnCodes {
  import opened Basics

  function MergeRc(current: int, rc: int): int {
    if rc == 0 then current
    else if current != 0 then current
    else rc
  }

  /** A signal kill -N becomes 128+N; other codes keep their low byte. */
  function ShellRc(rc: Option<int>): int {
    match rc
    case None => 1
    case Some(code) => if code < 0 then 128 - code else code % 256
  }

  /** No code is an error, a signal N is 128 + N, an exit code of a byte is itself, and any other its low byte. */
  lemma ShellRcTells(code: int)
    ensures ShellRc(None) == 1
    ensures code < 0 ==> ShellRc(Some(code)) + code == 128
    ensures 0 <= code <= 255 ==> ShellRc(Some(code)) == code
    ensures code >= 0 ==> 0 <= ShellRc(Some(code)) <= 255 && (code - ShellRc(Some(code))) % 256 == 0
  {}

  /** The code at `i` is the first that is not zero. */
  predicate FailsFirst(codes: seq<int>, i: nat) {
    i < |codes| && codes[i] != 0 && forall k :: 0 <= k < i ==> codes[k] == 0
  }

  /** The first failure among the codes, or zero. */
  function FirstFailure(codes: seq<int>): (r: int)
    ensures r == 0 <==> forall i :: 0 <= i < |codes| ==> codes[i] == 0
  {
    if codes == [] then 0
    else
      var r := FirstFailure(codes[..|codes| - 1]);
      if r != 0 then r else codes[|codes| - 1]
  }

  lemma {:induction false} FailsFirstIsKept(codes: seq<int>, i: nat)
    requires FailsFirst(codes, i)
    ensures FirstFailure(codes) == codes[i]
  {
    if i < |codes| - 1 {
      assert FailsFirst(codes[..|codes| - 1], i);
      FailsFirstIsKept(codes[..|codes| - 1], i);
    }
  }

  lemma {:induction false} FailureHasAPlace(codes: seq<int>) returns (i: nat)
    requires FirstFailure(codes) != 0
    ensures FailsFirst(codes, i) && codes[i] == FirstFailure(codes)
  {
    if FirstFailure(codes[..|codes| - 1]) != 0 {
      i := FailureHasAPlace(codes[..|codes| - 1]);
    } else {
      i := |codes| - 1;
    }
  }

  method MergeAll(codes: seq<int>) returns (rc: int)
    ensures rc == FirstFailure(codes)
  {
    rc := 0;
    for i := 0 to |codes|
      invariant rc == FirstFailure(codes[..i])
    {
      assert codes[..i + 1][..i] == codes[..i];
      rc := MergeRc(rc, codes[i]);
    }
    assert codes[..|codes|] == codes;
  }

  /** The shell sees zero exactly when every stream returned zero, unless the first failing code is a
      positive multiple of 256; real codes run from -127 to 255, and then the shell's code is a byte. */
  lemma {:induction false} ShellSeesEveryFailure(codes: seq<int>)
    ensures ShellRc(Some(FirstFailure(codes))) == 0 <==>
            FirstFailure(codes) >= 0 && FirstFailure(codes) % 256 == 0
    ensures (forall i :: 0 <= i < |codes| ==> -127 <= codes[i] <= 255) ==>
              0 <= ShellRc(Some(FirstFailure(codes))) <= 255
              && (ShellRc(Some(FirstFailure(codes))) == 0 <==> forall i :: 0 <= i < |codes| ==> codes[i] == 0)
  {
    var first := FirstFailure(codes);
    if first != 0 { var i := FailureHasAPlace(codes); }
  }
}

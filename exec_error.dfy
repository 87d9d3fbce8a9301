/** `wrapExecError`, written identically in video/internal.go and
    image/internal.go: the error of a finished subprocess, with the process's
    output attached when there is any. An error is its message; nil is None. */
module ExecError {
  import opened Wrappers
  import opened Utf8

  const ErrPrefix: string := "err: "
  const OutSeparator: string := "\nout: "

  function WrapExecError(err: Option<string>, output: seq<byte>): (r: Option<string>)
    ensures err == None ==> r == None
    ensures |output| == 0 ==> r == err
  {
    if err == None || |output| == 0 then err
    else Some(ErrPrefix + err.value + OutSeparator + Chars(output))
  }

  /** A wrapped error shows the original message and the whole output, in
      that order, and neither can be lost: both are read back from it. */
  lemma WrapExecErrorParts(e: string, output: seq<byte>)
    requires |output| > 0
    ensures var r := WrapExecError(Some(e), output).value;
      && |r| == |ErrPrefix| + |e| + |OutSeparator| + |output|
      && r[..|ErrPrefix|] == ErrPrefix
      && r[|ErrPrefix|..|ErrPrefix| + |e|] == e
      && r[|ErrPrefix| + |e|..|r| - |output|] == OutSeparator
      && r[|r| - |output|..] == Chars(output)
  {
  }

  /** Wrapping is one-to-one on the output: two runs that fail with the same
      error are told apart by what they printed. */
  lemma WrapExecErrorInjective(e: string, out1: seq<byte>, out2: seq<byte>)
    requires |out1| > 0 && |out2| > 0
    requires WrapExecError(Some(e), out1) == WrapExecError(Some(e), out2)
    ensures out1 == out2
  {
    WrapExecErrorParts(e, out1);
    WrapExecErrorParts(e, out2);
    var c1, c2 := Chars(out1), Chars(out2);
    assert c1 == c2;
    assert forall i :: 0 <= i < |out1| ==> out1[i] as int == c1[i] as int == out2[i] as int;
  }
}

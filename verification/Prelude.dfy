/** Small vocabulary shared by every module of the driver model. */
module Prelude {

  datatype Option<+T> = None | Some(value: T)

  /** The status codes the handlers answer with (gRPC codes used by the source). */
  datatype Code = InvalidArgument | OutOfRange | AlreadyExists | NotFound | Internal | Aborted

  /** A handler's answer: its response message or a status code. */
  datatype Reply<+T> = Ok(value: T) | Err(code: Code)

  /** The length of the text before the first occurrence of a character. */
  function UpTo(c: char, s: string): (n: nat)
    ensures n <= |s| && c !in s[..n] && (n < |s| ==> s[n] == c)
  {
    if s == "" || s[0] == c then 0 else
      var n := 1 + UpTo(c, s[1..]);
      assert s[..n] == [s[0]] + s[1..][..n - 1];
      n
  }

  lemma UpToOf(c: char, a: string, rest: string)
    requires c !in a && (rest == "" || rest[0] == c)
    ensures UpTo(c, a + rest) == |a|
  {
    var s := a + rest;
    var n := UpTo(c, s);
    assert rest != "" ==> s[|a|] == rest[0];
    assert forall i :: 0 <= i < n ==> s[i] in s[..n];
  }
}

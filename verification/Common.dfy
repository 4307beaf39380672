/** What every component shares: two wrappers, and a few small functions. */
module Common {
  datatype Option<+T> = None | Some(value: T)
  datatype Result<+T, +E> = Success(value: T) | Failure(error: E)

  function Max(a: nat, b: nat): nat { if a >= b then a else b }

  /** The last `n` characters of a text. */
  function Tail(s: string, n: nat): string { if |s| <= n then s else s[|s| - n..] }

  /** That is: a suffix of the text, of that length or the whole text. */
  lemma TailEnds(s: string, n: nat)
    ensures var r := Tail(s, n); |r| <= |s| && r == s[|s| - |r|..] && |r| <= n && (|r| == n || r == s)
  {
  }

  function Quoted(s: string): string { "\"" + s + "\"" }
}

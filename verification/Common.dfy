/** What several models share: optional values, error returns, and counting by removal. */
module Common {

  datatype Option<+T> = None | Some(value: T)

  datatype Result<+T> = Ok(value: T) | Err(message: string)

  /** The list without its entry `i`. */
  function Without<T>(s: seq<T>, i: nat): seq<T>
    requires i < |s|
  {
    s[..i] + s[i + 1..]
  }

  lemma WithoutSnoc<T>(s: seq<T>, i: nat)
    requires i < |s|
    ensures var n := |s| - 1;
            Without(s, i) == if i == n then s[..n] else Without(s[..n], i) + [s[n]]
  {
  }

  function One(x: nat, c: nat): nat { if x == c then 1 else 0 }
}

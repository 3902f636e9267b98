/** What the modules share: an optional value and powers of ten. */
module Wrappers {

  datatype Option<T> = None | Some(value: T)

  function Pow10(k: nat): nat { if k == 0 then 1 else 10 * Pow10(k - 1) }

  lemma {:induction false} Pow10Positive(k: nat)
    ensures Pow10(k) >= 1
  {
    if k > 0 { Pow10Positive(k - 1); }
  }
}

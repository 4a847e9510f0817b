/** What several parts of the model share. */
module Basics {
  datatype Option<+T> = None | Some(value: T)

  type Byte = b: nat | b < 256

  /** How many bytes a variable-length integer takes. */
  function VarintLen(v: nat): (n: nat)
    ensures n >= 1
    ensures v < 0x4000 ==> n <= 2
    ensures v < 0x20_0000 ==> n <= 3
    ensures v < 0x1000_0000 ==> n <= 4
    ensures v < 0x8_0000_0000 ==> n <= 5
  {
    if v < 0x80 then 1 else 1 + VarintLen(v / 128)
  }

  /** There is always a page number that is not in use. */
  lemma FreshPgno(used: set<nat>)
    ensures exists p: nat :: p >= 2 && p !in used
  {
    var bound := Above(used);
    assert bound + 2 !in used;
  }

  lemma {:induction false} Above(used: set<nat>) returns (bound: nat)
    ensures forall p :: p in used ==> p <= bound
  {
    if used == {} {
      bound := 0;
    } else {
      var p :| p in used;
      var b := Above(used - {p});
      bound := if p > b then p else b;
      forall q | q in used ensures q <= bound { assert q == p || q in used - {p}; }
    }
  }
}

/** Optional values and an unused number, shared by every component. */
module Options {
  datatype Option<+T> = None | Some(value: T)

  /** Finitely many numbers are in use, so some number lies above them all. */
  lemma {:induction false} Unused(used: set<nat>) returns (n: nat)
    ensures forall k :: k in used ==> k < n
    decreases |used|
  {
    if used == {} {
      n := 0;
    } else {
      var k :| k in used;
      var rest := used - {k};
      var m := Unused(rest);
      n := if k < m then m else k + 1;
      assert forall j :: j in used ==> j == k || j in rest;
    }
  }
}

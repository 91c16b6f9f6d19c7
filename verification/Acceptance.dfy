/** Whether nft accepts a batch depends on the shape of the ruleset, not on when it runs. */
module Acceptance {
  import opened Clock
  import opened Kernel

  /** Equal up to the elements of sets. */
  ghost predicate SameShape(a: Ruleset, b: Ruleset) {
    && a.Keys == b.Keys
    && forall key :: key in a ==> SameTableShape(a[key], b[key])
  }

  ghost predicate SameTableShape(a: Table, b: Table) {
    && a.chains == b.chains && a.sets.Keys == b.sets.Keys
    && forall s :: s in a.sets ==> a.sets[s].addrType == b.sets[s].addrType && a.sets[s].timed == b.sets[s].timed
  }

  lemma UpdateShape(a: Ruleset, b: Ruleset, key: TableKey, x: Table, y: Table)
    requires SameShape(a, b) && SameTableShape(x, y)
    ensures SameShape(a[key := x], b[key := y])
  {
  }

  lemma AddSetShape(c: Command, a: Ruleset, b: Ruleset, t: Time, u: Time)
    requires SameShape(a, b) && c.AddSet?
    ensures Exec(c, a, t).Some? <==> Exec(c, b, u).Some?
    ensures Exec(c, a, t).Some? ==> SameShape(Exec(c, a, t).value, Exec(c, b, u).value)
  {
    if Exec(c, a, t).Some? {
      UpdateShape(a, b, c.key, Exec(c, a, t).value[c.key], Exec(c, b, u).value[c.key]);
    }
  }

  lemma ExecShape(c: Command, a: Ruleset, b: Ruleset, t: Time, u: Time)
    requires SameShape(a, b)
    ensures Exec(c, a, t).Some? <==> Exec(c, b, u).Some?
    ensures Exec(c, a, t).Some? ==> SameShape(Exec(c, a, t).value, Exec(c, b, u).value)
  {
    if c.AddSet? {
      AddSetShape(c, a, b, t, u);
    }
  }

  /** Whether a batch is accepted does not depend on when it runs. */
  lemma {:induction false} AcceptanceIgnoresTime(batch: seq<Command>, rs: Ruleset, t: Time, u: Time)
    ensures Run(batch, rs, t).Some? <==> Run(batch, rs, u).Some?
    ensures Run(batch, rs, t).Some? ==> SameShape(Run(batch, rs, t).value, Run(batch, rs, u).value)
  {
    if batch != [] {
      var n := |batch| - 1;
      AcceptanceIgnoresTime(batch[..n], rs, t, u);
      if Run(batch[..n], rs, t).Some? {
        ExecShape(batch[n], Run(batch[..n], rs, t).value, Run(batch[..n], rs, u).value, t, u);
      }
    }
  }
}

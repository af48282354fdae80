/** The permission gate: every guarded operation carries a fixed
    (functionality name, authority name) pair that must be registered in the
    Functionality table, and some also demand that the caller holds ADMIN. */
module Gate {
  import opened Errors
  import Roles
  import opened Repository

  /** The fixed @PreAuthorize expression of one operation: the pair it looks
      up, and whether it adds `&& hasRole(ADMIN)`. */
  datatype Guard = Guard(op: string, authority: string, callerMustBeAdmin: bool)

  /** The expression holds, does not hold, or its lookup raised. */
  datatype Decision = Permit | Deny | LookupFailed

  /** The gate over the registry seen as a set of permissions. */
  predicate Permits(pairs: set<(string, string)>, g: Guard, callerRoles: set<string>): (ok: bool)
    ensures ok ==> (g.op, g.authority) in pairs
    ensures !g.callerMustBeAdmin ==> (ok <==> (g.op, g.authority) in pairs)
    ensures g.callerMustBeAdmin && Roles.ADMIN !in callerRoles ==> !ok
  {
    (g.op, g.authority) in pairs && (g.callerMustBeAdmin ==> Roles.ADMIN in callerRoles)
  }

  /** Registering more pairs or granting the caller more roles never takes a
      permission away. */
  lemma PermitsMonotone(p1: set<(string, string)>, p2: set<(string, string)>, g: Guard,
                        r1: set<string>, r2: set<string>)
    requires p1 <= p2 && r1 <= r2
    ensures Permits(p1, g, r1) ==> Permits(p2, g, r2)
  {
  }

  /** Evaluates a guard against the table: the lookup runs first, the role
      test only after it found a row. */
  function Decide(rows: map<int, Row>, g: Guard, callerRoles: set<string>): (d: Decision)
    ensures d == Permit ==> Permits(Pairs(rows), g, callerRoles)
    ensures d == Permit <==>
      |Matching(rows, g.op, g.authority)| == 1 && (g.callerMustBeAdmin ==> Roles.ADMIN in callerRoles)
    ensures d == LookupFailed <==> |Matching(rows, g.op, g.authority)| > 1
    ensures (g.op, g.authority) !in Pairs(rows) ==> d == Deny
    ensures g.callerMustBeAdmin && Roles.ADMIN !in callerRoles ==> d != Permit
  {
    match GetByNameAndAuthorityName(rows, g.op, g.authority)
    case NoMatch => Deny
    case NonUnique => LookupFailed
    case Match(_) => if g.callerMustBeAdmin && Roles.ADMIN !in callerRoles then Deny else Permit
  }

  /** The exception a refused call raises. */
  function Refusal(d: Decision): (e: Error)
    requires d != Permit
    ensures d == Deny <==> e == AccessDenied
  {
    if d == Deny then AccessDenied else GuardEvaluationFailed
  }

  /** When the guard's own pair has at most one row, evaluating the guard
      against the table is exactly the set-of-permissions gate. */
  lemma DecideIsPermits(rows: map<int, Row>, g: Guard, callerRoles: set<string>)
    requires |Matching(rows, g.op, g.authority)| <= 1
    ensures Decide(rows, g, callerRoles) != LookupFailed
    ensures Decide(rows, g, callerRoles) == Permit <==> Permits(Pairs(rows), g, callerRoles)
  {
    PairsMatching(rows, g.op, g.authority);
  }

  /** A table with no duplicated pair evaluates every guard as the
      set-of-permissions gate does. */
  lemma NoDuplicatesDecideIsPermits(rows: map<int, Row>, g: Guard, callerRoles: set<string>)
    requires NoDuplicatePairs(rows)
    ensures Decide(rows, g, callerRoles) == Permit <==> Permits(Pairs(rows), g, callerRoles)
  {
    NoDuplicatesNoLookupFailure(rows, g.op, g.authority);
    DecideIsPermits(rows, g, callerRoles);
  }

  /** A guard without the ADMIN test never looks at the caller's roles. */
  lemma RegistryOnlyGuardIgnoresCaller(rows: map<int, Row>, g: Guard, r1: set<string>, r2: set<string>)
    requires !g.callerMustBeAdmin
    ensures Decide(rows, g, r1) == Decide(rows, g, r2)
  {
  }

  /** Deleting the only row for a guard's pair makes the guard deny everyone. */
  lemma DeletingOnlyRowDenies(rows: map<int, Row>, id: int, g: Guard, callerRoles: set<string>)
    requires Matching(rows, g.op, g.authority) == {id}
    ensures Decide(rows - {id}, g, callerRoles) == Deny
  {
    RemoveOnlyRowRevokes(rows, id, g.op, g.authority);
  }

  /** Registering a guard's pair a second time makes the guard fail for
      everyone, ADMIN included. */
  lemma DuplicateRowFailsGuard(rows: map<int, Row>, id: int, g: Guard, callerRoles: set<string>)
    requires id !in rows
    requires (g.op, g.authority) in Pairs(rows)
    ensures Decide(rows[id := Row(g.op, Domain.Authority(g.authority))], g, callerRoles) == LookupFailed
  {
    AddDuplicateBreaksLookup(rows, id, Row(g.op, Domain.Authority(g.authority)));
  }

  /** Registering a guard's pair for the first time lets it through, for any
      caller when it has no ADMIN test and for ADMIN callers otherwise. */
  lemma FirstRowPermits(rows: map<int, Row>, id: int, g: Guard, callerRoles: set<string>)
    requires id !in rows
    requires (g.op, g.authority) !in Pairs(rows)
    requires g.callerMustBeAdmin ==> Roles.ADMIN in callerRoles
    ensures Decide(rows[id := Row(g.op, Domain.Authority(g.authority))], g, callerRoles) == Permit
  {
    AddFirstRowRegisters(rows, id, Row(g.op, Domain.Authority(g.authority)));
  }
}

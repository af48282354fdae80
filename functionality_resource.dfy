/** The GraphQL controller for Functionality: each operation is guarded, then
    checks the id it was given and delegates to the repository. */
module FunctionalityResource {
  import opened Wrappers
  import opened Errors
  import Roles
  import Text
  import opened Domain
  import opened Repository
  import opened Gate

  const ENTITY_NAME: string := "functionality.graphqls"

  // The guards as the controller writes them: create, update and list look
  // up "createUser", delete looks up "getFunctionality".
  const CreateGuard: Guard := Guard("createUser", Roles.ADMIN, true)
  const UpdateGuard: Guard := Guard("createUser", Roles.ADMIN, true)
  const GetAllGuard: Guard := Guard("createUser", Roles.ANONYMOUS, false)
  const GetOneGuard: Guard := Guard("getFunctionality", Roles.ANONYMOUS, false)
  const DeleteGuard: Guard := Guard("getFunctionality", Roles.ADMIN, true)

  /** createFunctionality: a new entity must not carry an id. */
  method CreateFunctionality(repo: FunctionalityRepository, f: Functionality, callerRoles: set<string>)
    returns (r: Result<Functionality>)
    requires repo.Valid()
    modifies repo, f
    ensures repo.Valid()
    ensures Decide(old(repo.rows), CreateGuard, callerRoles) != Permit ==>
      && r == Err(Refusal(Decide(old(repo.rows), CreateGuard, callerRoles)))
      && unchanged(repo) && unchanged(f)
    ensures Decide(old(repo.rows), CreateGuard, callerRoles) == Permit && old(f.id).Some? ==>
      r == Err(BadRequestAlert("idexists")) && unchanged(repo) && unchanged(f)
    ensures (Decide(old(repo.rows), CreateGuard, callerRoles) == Permit && old(f.id).None?
             && !Storable(old(f.name), old(f.authority))) ==>
      r == Err(ConstraintViolation) && unchanged(repo) && unchanged(f)
    ensures (Decide(old(repo.rows), CreateGuard, callerRoles) == Permit && old(f.id).None?
             && Storable(old(f.name), old(f.authority))) ==>
      && r == Ok(f) && f.id == Some(old(repo.nextId))
      && f.name == old(f.name) && f.authority == old(f.authority)
      && old(repo.nextId) !in old(repo.rows) && repo.nextId == old(repo.nextId) + 1
      && repo.rows == old(repo.rows)[old(repo.nextId) := RowOf(old(f.name), old(f.authority))]
      && |repo.rows| == |old(repo.rows)| + 1
  {
    var d := Decide(repo.rows, CreateGuard, callerRoles);
    if d != Permit {
      return Err(Refusal(d));
    }
    if f.id.Some? {
      return Err(BadRequestAlert("idexists"));
    }
    r := repo.Save(f);
  }

  /** updateFunctionality: the entity must carry an id. */
  method UpdateFunctionality(repo: FunctionalityRepository, f: Functionality, callerRoles: set<string>)
    returns (r: Result<Functionality>)
    requires repo.Valid()
    modifies repo, f
    ensures repo.Valid()
    ensures Decide(old(repo.rows), UpdateGuard, callerRoles) != Permit ==>
      && r == Err(Refusal(Decide(old(repo.rows), UpdateGuard, callerRoles)))
      && unchanged(repo) && unchanged(f)
    ensures Decide(old(repo.rows), UpdateGuard, callerRoles) == Permit && old(f.id).None? ==>
      r == Err(BadRequestAlert("idnull")) && unchanged(repo) && unchanged(f)
    ensures (Decide(old(repo.rows), UpdateGuard, callerRoles) == Permit && old(f.id).Some?
             && !Storable(old(f.name), old(f.authority))) ==>
      r == Err(ConstraintViolation) && unchanged(repo) && unchanged(f)
    ensures (Decide(old(repo.rows), UpdateGuard, callerRoles) == Permit && old(f.id).Some?
             && old(f.id).value in old(repo.rows) && Storable(old(f.name), old(f.authority))) ==>
      && r.Ok? && r.value.id == old(f.id) && unchanged(f)
      && r.value.name == old(f.name) && r.value.authority == old(f.authority)
      && repo.rows == old(repo.rows)[old(f.id).value := RowOf(old(f.name), old(f.authority))]
      && |repo.rows| == |old(repo.rows)| && repo.nextId == old(repo.nextId)
    ensures (Decide(old(repo.rows), UpdateGuard, callerRoles) == Permit && old(f.id).Some?
             && old(f.id).value !in old(repo.rows) && Storable(old(f.name), old(f.authority))) ==>
      && r.Ok? && r.value.id == Some(old(repo.nextId)) && unchanged(f)
      && r.value.name == old(f.name) && r.value.authority == old(f.authority)
      && old(repo.nextId) !in old(repo.rows) && repo.nextId == old(repo.nextId) + 1
      && repo.rows == old(repo.rows)[old(repo.nextId) := RowOf(old(f.name), old(f.authority))]
      && |repo.rows| == |old(repo.rows)| + 1
  {
    var d := Decide(repo.rows, UpdateGuard, callerRoles);
    if d != Permit {
      return Err(Refusal(d));
    }
    if f.id.None? {
      return Err(BadRequestAlert("idnull"));
    }
    r := repo.Save(f);
  }

  /** getAllFunctionalities: every row, to any caller once ("createUser",
      ANONYMOUS) is registered. */
  method GetAllFunctionalities(repo: FunctionalityRepository, callerRoles: set<string>)
    returns (r: Result<seq<Entry>>)
    ensures Decide(repo.rows, GetAllGuard, callerRoles) != Permit ==>
      r == Err(Refusal(Decide(repo.rows, GetAllGuard, callerRoles)))
    ensures Decide(repo.rows, GetAllGuard, callerRoles) == Permit ==>
      && r.Ok? && |r.value| == |repo.rows|
      && forall e :: e in r.value <==> e.id in repo.rows && repo.rows[e.id] == e.row
  {
    var d := Decide(repo.rows, GetAllGuard, callerRoles);
    if d != Permit {
      return Err(Refusal(d));
    }
    var all := repo.FindAll();
    r := Ok(all);
  }

  /** getFunctionality: the row of an id, to any caller once
      ("getFunctionality", ANONYMOUS) is registered. */
  function GetFunctionality(repo: FunctionalityRepository, id: Option<int>, callerRoles: set<string>)
    : (r: Result<Option<Entry>>)
    reads repo
    ensures Decide(repo.rows, GetOneGuard, callerRoles) != Permit ==>
      r == Err(Refusal(Decide(repo.rows, GetOneGuard, callerRoles)))
    ensures Decide(repo.rows, GetOneGuard, callerRoles) == Permit ==>
      && (id.None? <==> r == Err(IllegalArgument))
      && (r == Ok(None) <==> id.Some? && id.value !in repo.rows)
      && (id.Some? && id.value in repo.rows ==> r == Ok(Some(Entry(id.value, repo.rows[id.value]))))
  {
    var d := Decide(repo.rows, GetOneGuard, callerRoles);
    if d != Permit then Err(Refusal(d)) else repo.FindOne(id)
  }

  /** deleteFunctionality: removes the row and names it in the reply. */
  method DeleteFunctionality(repo: FunctionalityRepository, id: Option<int>, callerRoles: set<string>)
    returns (r: Result<string>)
    requires repo.Valid()
    modifies repo
    ensures repo.Valid()
    ensures Decide(old(repo.rows), DeleteGuard, callerRoles) != Permit ==>
      r == Err(Refusal(Decide(old(repo.rows), DeleteGuard, callerRoles))) && unchanged(repo)
    ensures Decide(old(repo.rows), DeleteGuard, callerRoles) == Permit && id.None? ==>
      r == Err(IllegalArgument) && unchanged(repo)
    ensures Decide(old(repo.rows), DeleteGuard, callerRoles) == Permit && id.Some? && id.value !in old(repo.rows) ==>
      r == Err(EmptyResult) && unchanged(repo)
    ensures Decide(old(repo.rows), DeleteGuard, callerRoles) == Permit && id.Some? && id.value in old(repo.rows) ==>
      && r.Ok? && repo.rows == old(repo.rows) - {id.value}
      && |repo.rows| == |old(repo.rows)| - 1 && repo.nextId == old(repo.nextId)
      && r.value == ENTITY_NAME + ": " + Text.LongToString(id.value)
      && |r.value| >= |ENTITY_NAME| + 2 && r.value[..|ENTITY_NAME| + 2] == ENTITY_NAME + ": "
      && Text.ParseLong(r.value[|ENTITY_NAME| + 2..]) == id
  {
    var d := Decide(repo.rows, DeleteGuard, callerRoles);
    if d != Permit {
      return Err(Refusal(d));
    }
    var deleted := repo.Delete(id);
    if deleted.Err? {
      return Err(deleted.error);
    }
    var text := Text.LongToString(id.value);
    Text.LongToStringRoundTrip(id.value);
    r := Ok(ENTITY_NAME + ": " + text);
    assert r.value[|ENTITY_NAME| + 2..] == text;
  }

  /** Create and update are gated by the "createUser" row, not by a row of
      their own. */
  lemma CreateAndUpdateUseCreateUserRow(rows: map<int, Row>, callerRoles: set<string>)
    ensures Decide(rows, CreateGuard, callerRoles) == Decide(rows, UpdateGuard, callerRoles)
    ensures Decide(rows, CreateGuard, callerRoles) == Permit <==>
      GetByNameAndAuthorityName(rows, "createUser", Roles.ADMIN).Match? && Roles.ADMIN in callerRoles
  {
  }

  /** Delete is gated by the ("getFunctionality", ADMIN) row: without it no
      caller may delete, with it (and no second such row) exactly the ADMIN callers
      may. */
  lemma DeleteUsesGetFunctionalityRow(rows: map<int, Row>, callerRoles: set<string>)
    requires |Matching(rows, "getFunctionality", Roles.ADMIN)| <= 1
    ensures Decide(rows, DeleteGuard, callerRoles) == Permit <==>
      ("getFunctionality", Roles.ADMIN) in Pairs(rows) && Roles.ADMIN in callerRoles
  {
    DecideIsPermits(rows, DeleteGuard, callerRoles);
  }

  /** The two read operations never look at the caller's roles. */
  lemma ReadsIgnoreCaller(rows: map<int, Row>, r1: set<string>, r2: set<string>)
    ensures Decide(rows, GetAllGuard, r1) == Decide(rows, GetAllGuard, r2)
    ensures Decide(rows, GetOneGuard, r1) == Decide(rows, GetOneGuard, r2)
  {
  }
}

/** The Functionality table (the permission registry) and the repository
    operations over it: the derived single-result queries, and the inherited
    save, findById, findAll and deleteById that the service passes through. */
module Repository {
  import opened Wrappers
  import opened Errors
  import opened Domain

  /** A stored row: its name and its (non-null) authority. */
  datatype Row = Row(name: string, authority: Authority)

  /** A row together with its id, as a query hands it back. */
  datatype Entry = Entry(id: int, row: Row)

  /** The (functionality name, authority name) pair a row grants. */
  function PairOf(row: Row): (string, string)
  {
    (row.name, row.authority.name)
  }

  /** The ids of the rows granting (n, a). */
  function Matching(rows: map<int, Row>, n: string, a: string): set<int>
  {
    set id | id in rows && PairOf(rows[id]) == (n, a)
  }

  /** The ids of the rows named n, whatever their authority. */
  function NameMatching(rows: map<int, Row>, n: string): set<int>
  {
    set id | id in rows && rows[id].name == n
  }

  /** The registry seen as a set of permissions. */
  function Pairs(rows: map<int, Row>): set<(string, string)>
  {
    set id | id in rows :: PairOf(rows[id])
  }

  /** No permission is granted by two rows. */
  ghost predicate NoDuplicatePairs(rows: map<int, Row>)
  {
    forall i, j | i in rows && j in rows && i != j :: PairOf(rows[i]) != PairOf(rows[j])
  }

  lemma PairsMatching(rows: map<int, Row>, n: string, a: string)
    ensures (n, a) in Pairs(rows) <==> Matching(rows, n, a) != {}
  {
    if (n, a) in Pairs(rows) {
      var id :| id in rows && PairOf(rows[id]) == (n, a);
      assert id in Matching(rows, n, a);
    }
    if Matching(rows, n, a) != {} {
      var id := ElementOf(Matching(rows, n, a));
      assert PairOf(rows[id]) in Pairs(rows);
    }
  }

  /** getByNameAndAuthority_Name: the one row granting (n, a); nothing when
      none does; an error when several do. */
  function GetByNameAndAuthorityName(rows: map<int, Row>, n: string, a: string): (r: Unique<Entry>)
    ensures r.NoMatch? <==> (n, a) !in Pairs(rows)
    ensures r.Match? ==>
      && r.value.id in rows && rows[r.value.id] == r.value.row
      && r.value.row.name == n && r.value.row.authority.name == a
      && Matching(rows, n, a) == {r.value.id}
    ensures r.NonUnique? <==> |Matching(rows, n, a)| > 1
  {
    PairsMatching(rows, n, a);
    match UniqueOf(Matching(rows, n, a))
    case NoMatch => NoMatch
    case Match(id) => Match(Entry(id, rows[id]))
    case NonUnique => NonUnique
  }

  lemma NameMatchingEmpty(rows: map<int, Row>, n: string)
    ensures NameMatching(rows, n) == {} <==> forall id | id in rows :: rows[id].name != n
  {
    if NameMatching(rows, n) == {} {
      forall id | id in rows ensures rows[id].name != n {
        assert id !in NameMatching(rows, n);
      }
    } else {
      var id := ElementOf(NameMatching(rows, n));
      assert rows[id].name == n;
    }
  }

  /** getByName: the one row named n, whatever its authority. */
  function GetByName(rows: map<int, Row>, n: string): (r: Unique<Entry>)
    ensures r.NoMatch? <==> forall id | id in rows :: rows[id].name != n
    ensures r.Match? ==>
      && r.value.id in rows && rows[r.value.id] == r.value.row && r.value.row.name == n
      && NameMatching(rows, n) == {r.value.id}
    ensures r.NonUnique? <==> |NameMatching(rows, n)| > 1
  {
    NameMatchingEmpty(rows, n);
    match UniqueOf(NameMatching(rows, n))
    case NoMatch => NoMatch
    case Match(id) => Match(Entry(id, rows[id]))
    case NonUnique => NonUnique
  }

  /** The id a lookup found, forgetting the row contents. */
  function FoundId(u: Unique<Entry>): Unique<int>
  {
    match u
    case NoMatch => NoMatch
    case Match(e) => Match(e.id)
    case NonUnique => NonUnique
  }

  /** getByName never looks at the authority: changing the authority of any
      row leaves its outcome unchanged. */
  lemma GetByNameIgnoresAuthority(rows: map<int, Row>, id: int, a: Authority, n: string)
    requires id in rows
    ensures FoundId(GetByName(rows[id := rows[id].(authority := a)], n)) == FoundId(GetByName(rows, n))
  {
    var rows' := rows[id := rows[id].(authority := a)];
    assert NameMatching(rows', n) == NameMatching(rows, n);
  }

  /** Without duplicate rows the lookup never fails. */
  lemma NoDuplicatesNoLookupFailure(rows: map<int, Row>, n: string, a: string)
    requires NoDuplicatePairs(rows)
    ensures !GetByNameAndAuthorityName(rows, n, a).NonUnique?
  {
    var m := Matching(rows, n, a);
    forall i, j | i in m && j in m ensures i == j {
      assert PairOf(rows[i]) == PairOf(rows[j]);
    }
    AtMostOne(m);
  }

  /** Adding a row under a new id adds exactly its permission. */
  lemma AddRowPairs(rows: map<int, Row>, id: int, row: Row)
    requires id !in rows
    ensures Pairs(rows[id := row]) == Pairs(rows) + {PairOf(row)}
  {
    var rows' := rows[id := row];
    forall p | p in Pairs(rows) ensures p in Pairs(rows') {
      var k :| k in rows && PairOf(rows[k]) == p;
      assert k in rows' && rows'[k] == rows[k];
    }
    assert id in rows' && PairOf(rows'[id]) == PairOf(row);
  }

  /** Adding a row for a permission that already has one breaks its lookup:
      two rows now match. */
  lemma AddDuplicateBreaksLookup(rows: map<int, Row>, id: int, row: Row)
    requires id !in rows
    requires PairOf(row) in Pairs(rows)
    ensures GetByNameAndAuthorityName(rows[id := row], row.name, row.authority.name).NonUnique?
  {
    var k :| k in rows && PairOf(rows[k]) == PairOf(row);
    var rows' := rows[id := row];
    assert k in Matching(rows', row.name, row.authority.name);
    assert id in Matching(rows', row.name, row.authority.name);
  }

  /** Adding the first row for a permission makes its lookup find that row. */
  lemma AddFirstRowRegisters(rows: map<int, Row>, id: int, row: Row)
    requires id !in rows
    requires PairOf(row) !in Pairs(rows)
    ensures GetByNameAndAuthorityName(rows[id := row], row.name, row.authority.name) == Match(Entry(id, row))
  {
    var rows' := rows[id := row];
    forall k | k in Matching(rows', row.name, row.authority.name) ensures k == id {
    }
    assert id in Matching(rows', row.name, row.authority.name);
  }

  /** Removing the only row for a permission revokes it. */
  lemma RemoveOnlyRowRevokes(rows: map<int, Row>, id: int, n: string, a: string)
    requires Matching(rows, n, a) == {id}
    ensures GetByNameAndAuthorityName(rows - {id}, n, a).NoMatch?
  {
    var rows' := rows - {id};
    forall k | k in rows' ensures PairOf(rows'[k]) != (n, a) {
    }
    PairsMatching(rows', n, a);
  }

  /** Both parts of a row are present. */
  predicate Storable(name: Option<string>, authority: Option<Authority>)
  {
    name.Some? && authority.Some?
  }

  function RowOf(name: Option<string>, authority: Option<Authority>): Row
    requires Storable(name, authority)
  {
    Row(name.value, authority.value)
  }

  /** The Functionality table behind the repository: rows by id and the
      sequence that hands out new ids. */
  class FunctionalityRepository {
    var rows: map<int, Row>
    var nextId: int

    /** Every stored id was handed out by the sequence already. */
    ghost predicate Valid()
      reads this
    {
      forall id | id in rows :: id < nextId
    }

    constructor (initial: map<int, Row>, next: int)
      requires forall id | id in initial :: id < next
      ensures Valid() && rows == initial && nextId == next
    {
      rows, nextId := initial, next;
    }

    /** save: an entity without an id is inserted under a new id, which is
        written into it; an entity with an id replaces the row of that id,
        or is inserted under a new id when no row has it, and a copy is
        handed back. A null name or authority is rejected. */
    method Save(f: Functionality) returns (r: Result<Functionality>)
      requires Valid()
      modifies this, f
      ensures Valid()
      ensures !Storable(old(f.name), old(f.authority)) ==>
        r == Err(ConstraintViolation) && unchanged(f) && unchanged(this)
      ensures Storable(old(f.name), old(f.authority)) && old(f.id).None? ==>
        && r == Ok(f) && f.id == Some(old(nextId))
        && f.name == old(f.name) && f.authority == old(f.authority)
        && old(nextId) !in old(rows)
        && rows == old(rows)[old(nextId) := RowOf(old(f.name), old(f.authority))]
        && |rows| == |old(rows)| + 1 && nextId == old(nextId) + 1
      ensures Storable(old(f.name), old(f.authority)) && old(f.id).Some? && old(f.id).value in old(rows) ==>
        && r.Ok? && fresh(r.value) && unchanged(f)
        && r.value.id == old(f.id) && r.value.name == old(f.name) && r.value.authority == old(f.authority)
        && rows == old(rows)[old(f.id).value := RowOf(old(f.name), old(f.authority))]
        && |rows| == |old(rows)| && nextId == old(nextId)
      ensures Storable(old(f.name), old(f.authority)) && old(f.id).Some? && old(f.id).value !in old(rows) ==>
        && r.Ok? && fresh(r.value) && unchanged(f)
        && r.value.id == Some(old(nextId)) && r.value.name == old(f.name) && r.value.authority == old(f.authority)
        && old(nextId) !in old(rows)
        && rows == old(rows)[old(nextId) := RowOf(old(f.name), old(f.authority))]
        && |rows| == |old(rows)| + 1 && nextId == old(nextId) + 1
    {
      if !Storable(f.name, f.authority) {
        return Err(ConstraintViolation);
      }
      var row := RowOf(f.name, f.authority);
      if f.id.None? {
        f.id := Some(nextId);
        rows := rows[nextId := row];
        nextId := nextId + 1;
        r := Ok(f);
      } else if f.id.value in rows {
        var copy := new Functionality();
        copy.id, copy.name, copy.authority := f.id, f.name, f.authority;
        rows := rows[f.id.value := row];
        r := Ok(copy);
      } else {
        var copy := new Functionality();
        copy.id, copy.name, copy.authority := Some(nextId), f.name, f.authority;
        rows := rows[nextId := row];
        nextId := nextId + 1;
        r := Ok(copy);
      }
    }

    /** findById: the row of that id, if any; a null id is an error. */
    function FindOne(id: Option<int>): (r: Result<Option<Entry>>)
      reads this
      ensures id.None? <==> r == Err(IllegalArgument)
      ensures r == Ok(None) <==> id.Some? && id.value !in rows
      ensures r.Ok? && r.value.Some? ==>
        id == Some(r.value.value.id) && r.value.value.id in rows && rows[r.value.value.id] == r.value.value.row
    {
      match id
      case None => Err(IllegalArgument)
      case Some(i) => if i in rows then Ok(Some(Entry(i, rows[i]))) else Ok(None)
    }

    /** findAll: every stored row exactly once, in no particular order. */
    method FindAll() returns (all: seq<Entry>)
      ensures |all| == |rows|
      ensures forall e :: e in all <==> e.id in rows && rows[e.id] == e.row
      ensures forall i, j :: 0 <= i < j < |all| ==> all[i].id != all[j].id
    {
      all := [];
      var remaining := rows.Keys;
      while remaining != {}
        invariant remaining <= rows.Keys
        invariant forall e :: e in all <==> e.id in rows.Keys - remaining && rows[e.id] == e.row
        invariant forall i, j :: 0 <= i < j < |all| ==> all[i].id != all[j].id
        invariant |all| == |rows.Keys - remaining|
        decreases remaining
      {
        ghost var some := ElementOf(remaining);
        var id :| id in remaining;
        assert rows.Keys - (remaining - {id}) == (rows.Keys - remaining) + {id};
        all := all + [Entry(id, rows[id])];
        remaining := remaining - {id};
      }
      assert rows.Keys - remaining == rows.Keys;
    }

    /** deleteById: removes the row of that id; a null id or an id without a
        row is an error and changes nothing. */
    method Delete(id: Option<int>) returns (r: Result<()>)
      requires Valid()
      modifies this
      ensures Valid() && nextId == old(nextId)
      ensures id.None? ==> r == Err(IllegalArgument) && unchanged(this)
      ensures id.Some? && id.value !in old(rows) ==> r == Err(EmptyResult) && unchanged(this)
      ensures id.Some? && id.value in old(rows) ==>
        r == Ok(()) && rows == old(rows) - {id.value} && |rows| == |old(rows)| - 1
    {
      if id.None? {
        return Err(IllegalArgument);
      }
      if id.value !in rows {
        return Err(EmptyResult);
      }
      rows := rows - {id.value};
      assert rows.Keys == old(rows).Keys - {id.value};
      r := Ok(());
    }
  }
}

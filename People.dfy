/** The `people` table: rows with an id the table assigns, a name, the two
    coordinates and an optional Wikipedia URL. Ids come from an AUTOINCREMENT
    key, so they only ever grow and a deleted id is never handed out again;
    name lookups compare SQLite's `LOWER` of both sides. */
module People {
  import opened Wrappers
  import opened Text

  datatype Person = Person(id: nat, name: string, x: real, y: real, wikipediaUrl: Option<string>)

  /** What `wikipedia_url || null` stores: an absent or empty URL becomes NULL. */
  function StoredUrl(url: Option<string>): (r: Option<string>)
    ensures r.None? <==> url.None? || url.value == ""
    ensures r.Some? ==> r == url
  {
    match url
    case Some(u) => if u == "" then None else Some(u)
    case None => None
  }

  /** Ids strictly increase along the table, so they are unique. */
  predicate IdsIncreasing(rows: seq<Person>) {
    forall i, j :: 0 <= i < j < |rows| ==> rows[i].id < rows[j].id
  }

  /** `SELECT * FROM people WHERE id = ?`: the row with that id, if any. */
  function FindById(rows: seq<Person>, id: nat): (r: Option<Person>)
    ensures r.Some? ==> r.value in rows && r.value.id == id
    ensures r.None? <==> forall i :: 0 <= i < |rows| ==> rows[i].id != id
  {
    if |rows| == 0 then None
    else if rows[0].id == id then Some(rows[0])
    else FindById(rows[1..], id)
  }

  /** With unique ids, the row found for an id is the one at its position. */
  lemma {:induction false} FindByIdAt(rows: seq<Person>, k: nat)
    requires IdsIncreasing(rows) && k < |rows|
    ensures FindById(rows, rows[k].id) == Some(rows[k])
  {
    if k > 0 {
      FindByIdAt(rows[1..], k - 1);
    }
  }

  /** `SELECT COUNT(*) FROM people WHERE LOWER(name) = LOWER(?)`. */
  function NameCount(rows: seq<Person>, name: string): (n: nat)
    ensures n <= |rows|
  {
    if |rows| == 0 then 0
    else
      var here := if AsciiLower(rows[|rows| - 1].name) == AsciiLower(name) then 1 else 0;
      NameCount(rows[..|rows| - 1], name) + here
  }

  /** `personExists`: some row has the name, up to the case of ASCII letters. */
  function NameTaken(rows: seq<Person>, name: string): (b: bool)
    ensures b <==> exists i :: 0 <= i < |rows| && EqualIgnoringAsciiCase(rows[i].name, name)
  {
    NameCountPositive(rows, name);
    NameCount(rows, name) > 0
  }

  lemma {:induction false} NameCountPositive(rows: seq<Person>, name: string)
    ensures NameCount(rows, name) > 0 <==>
      exists i :: 0 <= i < |rows| && EqualIgnoringAsciiCase(rows[i].name, name)
  {
    if |rows| > 0 {
      var n := |rows| - 1;
      NameCountPositive(rows[..n], name);
      AsciiLowerMatchesIgnoringCase(rows[n].name, name);
      if exists i :: 0 <= i < |rows| && EqualIgnoringAsciiCase(rows[i].name, name) {
        var i :| 0 <= i < |rows| && EqualIgnoringAsciiCase(rows[i].name, name);
        if i < n {
          assert rows[..n][i] == rows[i];
        }
      }
      if exists i :: 0 <= i < n && EqualIgnoringAsciiCase(rows[..n][i].name, name) {
        var i :| 0 <= i < n && EqualIgnoringAsciiCase(rows[..n][i].name, name);
        assert rows[..n][i] == rows[i];
      }
    }
  }

  /** A name that has been added is taken, under every spelling that differs
      from it only in the case of ASCII letters. */
  lemma AddedNameTaken(rows: seq<Person>, p: Person, name: string)
    requires EqualIgnoringAsciiCase(p.name, name)
    ensures NameTaken(rows + [p], name)
  {
    assert (rows + [p])[|rows|] == p;
  }

  /** `UPDATE people SET x = ?, y = ? WHERE id = ?`: every row with that id
      gets the new coordinates, all else stays. */
  function WithCoordinates(rows: seq<Person>, id: nat, x: real, y: real): (r: seq<Person>)
    ensures |r| == |rows|
    ensures forall i :: 0 <= i < |rows| ==>
      r[i].id == rows[i].id && r[i].name == rows[i].name && r[i].wikipediaUrl == rows[i].wikipediaUrl
  {
    seq(|rows|, i requires 0 <= i < |rows| =>
      if rows[i].id == id then rows[i].(x := x, y := y) else rows[i])
  }

  /** After an update the row with that id has the new coordinates and every
      other row reads as before; names and ids are untouched. */
  lemma {:induction false} UpdateEffect(rows: seq<Person>, id: nat, x: real, y: real, other: nat)
    requires other != id
    ensures FindById(WithCoordinates(rows, id, x, y), id) ==
      (match FindById(rows, id) case Some(p) => Some(p.(x := x, y := y)) case None => None)
    ensures FindById(WithCoordinates(rows, id, x, y), other) == FindById(rows, other)
  {
    if |rows| > 0 {
      var r := WithCoordinates(rows, id, x, y);
      assert r[1..] == WithCoordinates(rows[1..], id, x, y);
      UpdateEffect(rows[1..], id, x, y, other);
    }
  }

  /** `DELETE FROM people WHERE id = ?`: the rows with another id, in order. */
  function WithoutId(rows: seq<Person>, id: nat): (r: seq<Person>)
    ensures |r| <= |rows|
    ensures forall p :: p in r <==> p in rows && p.id != id
  {
    if |rows| == 0 then []
    else
      var rest := WithoutId(rows[..|rows| - 1], id);
      var last := rows[|rows| - 1];
      assert forall p :: p in rows <==> p in rows[..|rows| - 1] || p == last by {
        assert rows == rows[..|rows| - 1] + [last];
      }
      if last.id == id then rest else rest + [last]
  }

  /** Deleting keeps the remaining rows in id order. */
  lemma {:induction false} WithoutIdIncreasing(rows: seq<Person>, id: nat)
    requires IdsIncreasing(rows)
    ensures IdsIncreasing(WithoutId(rows, id))
  {
    if |rows| > 0 {
      var n := |rows| - 1;
      var front, last := rows[..n], rows[n];
      assert IdsIncreasing(front);
      WithoutIdIncreasing(front, id);
      var rest := WithoutId(front, id);
      if last.id != id {
        forall i | 0 <= i < |rest| ensures rest[i].id < last.id {
          assert rest[i] in front;
          var k :| 0 <= k < n && front[k] == rest[i];
          assert front[k] == rows[k];
        }
        AppendIncreasing(rest, last);
      }
    }
  }

  /** A row with a larger id than all others can go last. */
  lemma AppendIncreasing(rows: seq<Person>, p: Person)
    requires IdsIncreasing(rows)
    requires forall i :: 0 <= i < |rows| ==> rows[i].id < p.id
    ensures IdsIncreasing(rows + [p])
  {
  }

  /** After a delete no row has that id, and every other id reads as before. */
  lemma DeleteEffect(rows: seq<Person>, id: nat, other: nat)
    requires IdsIncreasing(rows) && other != id
    ensures FindById(WithoutId(rows, id), id) == None
    ensures FindById(WithoutId(rows, id), other) == FindById(rows, other)
  {
    var r := WithoutId(rows, id);
    WithoutIdIncreasing(rows, id);
    if FindById(rows, other).Some? {
      var p := FindById(rows, other).value;
      assert p in r;
      var k :| 0 <= k < |r| && r[k] == p;
      FindByIdAt(r, k);
    }
  }

  /** The table: its rows in id order and the id the next insert gets. */
  class Store {
    var rows: seq<Person>
    var nextId: nat

    /** Every id is positive, below `nextId`, and they increase. */
    ghost predicate Valid()
      reads this
    {
      nextId >= 1
      && IdsIncreasing(rows)
      && forall i :: 0 <= i < |rows| ==> 0 < rows[i].id < nextId
    }

    /** `CREATE TABLE IF NOT EXISTS people`, on a fresh database file. */
    constructor ()
      ensures Valid()
      ensures rows == [] && nextId == 1
    {
      rows := [];
      nextId := 1;
    }

    /** `getAllPeople`: every row, in id order. */
    function AllPeople(): (r: seq<Person>)
      reads this
      requires Valid()
      ensures IdsIncreasing(r)
    {
      rows
    }

    /** `getPerson`. */
    function GetPerson(id: nat): (r: Option<Person>)
      reads this
      ensures r.Some? ==> r.value in rows && r.value.id == id
      ensures r.None? <==> forall i :: 0 <= i < |rows| ==> rows[i].id != id
    {
      FindById(rows, id)
    }

    /** `personExists`. */
    function PersonExists(name: string): (b: bool)
      reads this
      ensures b <==> exists i :: 0 <= i < |rows| && EqualIgnoringAsciiCase(rows[i].name, name)
    {
      NameTaken(rows, name)
    }

    /** `addPerson`: the row gets the next id, is appended, and is read back
        by that id; the name is taken from then on. */
    method AddPerson(name: string, x: real, y: real, url: Option<string>) returns (p: Person)
      requires Valid()
      modifies this
      ensures Valid()
      ensures p == Person(old(nextId), name, x, y, StoredUrl(url))
      ensures rows == old(rows) + [p] && nextId == old(nextId) + 1
      ensures GetPerson(p.id) == Some(p)
      ensures PersonExists(name)
    {
      var row := Person(nextId, name, x, y, StoredUrl(url));
      rows := rows + [row];
      nextId := nextId + 1;
      FindByIdAt(rows, |rows| - 1);
      AddedNameTaken(old(rows), row, name);
      p := row;
    }

    /** `updatePerson`: an id that is not in the table changes nothing. */
    method UpdatePerson(id: nat, x: real, y: real)
      requires Valid()
      modifies this
      ensures Valid()
      ensures rows == WithCoordinates(old(rows), id, x, y) && nextId == old(nextId)
    {
      rows := WithCoordinates(rows, id, x, y);
    }

    /** `deletePerson`: the id is not reused, since `nextId` stays. */
    method DeletePerson(id: nat)
      requires Valid()
      modifies this
      ensures Valid()
      ensures rows == WithoutId(old(rows), id) && nextId == old(nextId)
      ensures GetPerson(id) == None
    {
      WithoutIdIncreasing(rows, id);
      DeleteEffect(rows, id, id + 1);
      rows := WithoutId(rows, id);
      forall i | 0 <= i < |rows| ensures 0 < rows[i].id < nextId {
        assert rows[i] in old(rows);
      }
    }

    /** The start-up seed: an empty table gets Ayn Rand at (8, -8). */
    method SeedIfEmpty()
      requires Valid()
      modifies this
      ensures Valid()
      ensures old(|rows|) == 0 ==>
        rows == [Person(old(nextId), "Ayn Rand", 8.0, -8.0, Some("https://en.wikipedia.org/wiki/Ayn_Rand"))]
        && nextId == old(nextId) + 1
      ensures old(|rows|) != 0 ==> rows == old(rows) && nextId == old(nextId)
    {
      if |rows| == 0 {
        var _ := AddPerson("Ayn Rand", 8.0, -8.0, Some("https://en.wikipedia.org/wiki/Ayn_Rand"));
      }
    }
  }
}

/** The `countries` table as a value: its rows in storage order and the next
    id the primary-key sequence hands out. The service's repository calls
    (`findOne`, `update`, `create` + `save`, `delete`) are defined here on
    that value; the service class applies them to its own state. */
module CountryStore {
  import opened Wrappers
  import opened CountryEntity

  datatype Table = Table(rows: seq<Country>, nextId: nat)

  /** A fresh table: no rows, and the generated primary key starts at 1. */
  const Empty: Table := Table([], 1)

  /** Every id was handed out by the sequence. */
  predicate IdsBelow(rows: seq<Country>, nextId: nat) {
    forall i :: 0 <= i < |rows| ==> rows[i].id < nextId
  }

  /** The primary key identifies one row. */
  predicate UniqueIds(rows: seq<Country>) {
    forall i, j :: 0 <= i < j < |rows| ==> rows[i].id != rows[j].id
  }

  /** No two rows share a name under case-insensitive comparison. */
  predicate UniqueNames(rows: seq<Country>) {
    forall i, j :: 0 <= i < j < |rows| ==> !SameName(rows[i].name, rows[j].name)
  }

  /** The table invariant every operation of the service keeps. */
  predicate Valid(t: Table) {
    IdsBelow(t.rows, t.nextId) && UniqueIds(t.rows) && UniqueNames(t.rows)
  }

  /** `findOne({ where: { name: ILike(name) } })`: the position of the first
      row whose name matches case-insensitively, or `None`. */
  function FindIndex(rows: seq<Country>, name: string): (r: Option<nat>)
    ensures r.None? <==> forall i :: 0 <= i < |rows| ==> !SameName(rows[i].name, name)
    ensures r.Some? ==> r.value < |rows| && SameName(rows[r.value].name, name)
    ensures r.Some? ==> forall i :: 0 <= i < r.value ==> !SameName(rows[i].name, name)
  {
    if |rows| == 0 then None
    else if SameName(rows[0].name, name) then Some(0)
    else match FindIndex(rows[1..], name)
      case None => None
      case Some(k) => Some(k + 1)
  }

  /** The first match is determined by the rows: any position that matches
      with no match before it is the one `FindIndex` reports. */
  lemma FindIndexIs(rows: seq<Country>, name: string, k: nat)
    requires k < |rows| && SameName(rows[k].name, name)
    requires forall i :: 0 <= i < k ==> !SameName(rows[i].name, name)
    ensures FindIndex(rows, name) == Some(k)
  {
  }

  /** `upsertCountry`: when a row matches the DTO's name case-insensitively,
      that row is overwritten in place under its own id; otherwise a row with
      the next id is appended. Either way the row carries the DTO's fields
      and the batch timestamp, the match afterwards is that row, the table
      grows by one exactly when there was no match, and every other row
      (in particular every row that does not match) keeps its position and
      content. */
  function Upserted(t: Table, dto: CountryDto, stamp: Timestamp): (u: Table)
    ensures FindIndex(u.rows, dto.name).Some?
    ensures Reflects(u.rows[FindIndex(u.rows, dto.name).value], dto, stamp)
    ensures |u.rows| == if FindIndex(t.rows, dto.name).None? then |t.rows| + 1 else |t.rows|
    ensures FindIndex(t.rows, dto.name).Some? ==>
              && FindIndex(u.rows, dto.name) == FindIndex(t.rows, dto.name)
              && u.rows[FindIndex(t.rows, dto.name).value].id == t.rows[FindIndex(t.rows, dto.name).value].id
              && u.nextId == t.nextId
    ensures FindIndex(t.rows, dto.name).None? ==>
              && FindIndex(u.rows, dto.name) == Some(|t.rows|)
              && u.rows[|t.rows|].id == t.nextId
              && u.nextId == t.nextId + 1
    ensures forall i :: 0 <= i < |t.rows| && Some(i) != FindIndex(t.rows, dto.name) ==> u.rows[i] == t.rows[i]
    ensures forall i :: 0 <= i < |t.rows| && !SameName(t.rows[i].name, dto.name) ==> u.rows[i] == t.rows[i]
  {
    match FindIndex(t.rows, dto.name)
    case Some(k) =>
      var rows := t.rows[k := FromDto(t.rows[k].id, dto, stamp)];
      FindIndexIs(rows, dto.name, k);
      Table(rows, t.nextId)
    case None =>
      var rows := t.rows + [FromDto(t.nextId, dto, stamp)];
      FindIndexIs(rows, dto.name, |t.rows|);
      Table(rows, t.nextId + 1)
  }

  /** An upsert keeps the table invariant: the overwritten row keeps its id
      and its name's case-insensitive class, and an appended row takes a
      fresh id and a name no other row has. */
  lemma UpsertKeepsValid(t: Table, dto: CountryDto, stamp: Timestamp)
    requires Valid(t)
    ensures Valid(Upserted(t, dto, stamp))
  {
    var u := Upserted(t, dto, stamp);
    match FindIndex(t.rows, dto.name)
    case Some(k) =>
      forall i | 0 <= i < |u.rows| && i != k ensures u.rows[i] == t.rows[i] {
        assert !SameName(t.rows[i].name, t.rows[k].name) by {
          if i < k { assert !SameName(t.rows[i].name, t.rows[k].name); }
        }
      }
    case None =>
  }

  /** Upserting the same DTO twice with the same timestamp leaves the table
      as one upsert does. */
  lemma {:induction false} UpsertIdempotent(t: Table, dto: CountryDto, stamp: Timestamp)
    ensures Upserted(Upserted(t, dto, stamp), dto, stamp) == Upserted(t, dto, stamp)
  {
    var u := Upserted(t, dto, stamp);
    var k := FindIndex(u.rows, dto.name).value;
    assert u.rows[k] == FromDto(u.rows[k].id, dto, stamp);
    assert u.rows[k := FromDto(u.rows[k].id, dto, stamp)] == u.rows;
  }

  /** Upserting two names that differ only in case updates one row: the
      second upsert does not grow the table and overwrites the row the first
      one wrote. */
  lemma CaseInsensitiveIdentity(t: Table, first: CountryDto, second: CountryDto, s1: Timestamp, s2: Timestamp)
    requires SameName(first.name, second.name)
    ensures |Upserted(Upserted(t, first, s1), second, s2).rows| == |Upserted(t, first, s1).rows|
    ensures FindIndex(Upserted(Upserted(t, first, s1), second, s2).rows, first.name)
            == FindIndex(Upserted(t, first, s1).rows, first.name)
  {
    var u := Upserted(t, first, s1);
    var k := FindIndex(u.rows, first.name).value;
    assert SameName(u.rows[k].name, second.name);
    var w := Upserted(u, second, s2);
    assert FindIndex(u.rows, second.name) == Some(k) by {
      FindIndexIs(u.rows, second.name, k);
    }
    FindIndexIs(w.rows, first.name, k);
  }

  /** The number of rows whose name matches case-insensitively. */
  function MatchCount(rows: seq<Country>, name: string): (n: nat)
    ensures n <= |rows|
    ensures n == 0 <==> forall i :: 0 <= i < |rows| ==> !SameName(rows[i].name, name)
    ensures n == |rows| <==> forall i :: 0 <= i < |rows| ==> SameName(rows[i].name, name)
  {
    if |rows| == 0 then 0
    else (if SameName(rows[0].name, name) then 1 else 0) + MatchCount(rows[1..], name)
  }

  /** Under unique names at most one row matches any name. */
  lemma {:induction false} MatchCountAtMostOne(rows: seq<Country>, name: string)
    requires UniqueNames(rows)
    ensures MatchCount(rows, name) <= 1
  {
    if |rows| > 0 {
      assert UniqueNames(rows[1..]) by {
        forall i, j | 0 <= i < j < |rows[1..]|
          ensures !SameName(rows[1..][i].name, rows[1..][j].name)
        {
          assert rows[1..][i] == rows[i + 1] && rows[1..][j] == rows[j + 1];
        }
      }
      MatchCountAtMostOne(rows[1..], name);
      if SameName(rows[0].name, name) {
        forall i | 0 <= i < |rows[1..]| ensures !SameName(rows[1..][i].name, name) {
          assert rows[1..][i] == rows[i + 1];
          assert !SameName(rows[0].name, rows[i + 1].name);
        }
      }
    }
  }

  /** `a` is `b` with some elements left out, the rest in their order. */
  predicate Subsequence<T(==)>(a: seq<T>, b: seq<T>)
    decreases |b|
  {
    |a| == 0 || (|b| > 0 && ((a[0] == b[0] && Subsequence(a[1..], b[1..])) || Subsequence(a, b[1..])))
  }

  /** `delete({ name: ILike(name) })`: every row whose name matches is
      removed, every other row is kept in its order, and exactly
      `MatchCount` rows go. */
  function RemoveNamed(rows: seq<Country>, name: string): (r: seq<Country>)
    ensures |r| == |rows| - MatchCount(rows, name)
    ensures forall i :: 0 <= i < |r| ==> !SameName(r[i].name, name)
    ensures forall c :: c in r ==> c in rows
    ensures forall c :: c in rows && !SameName(c.name, name) ==> c in r
    ensures Subsequence(r, rows)
  {
    if |rows| == 0 then []
    else if SameName(rows[0].name, name) then RemoveNamed(rows[1..], name)
    else [rows[0]] + RemoveNamed(rows[1..], name)
  }

  /** Two rows differ in id and in case-insensitive name. */
  predicate Apart(a: Country, b: Country) {
    a.id != b.id && !SameName(a.name, b.name)
  }

  /** Putting a row in front of rows it is apart from keeps ids and names
      unique. */
  lemma ConsUnique(x: Country, s: seq<Country>)
    requires UniqueIds(s) && UniqueNames(s)
    requires forall y :: y in s ==> Apart(x, y)
    ensures UniqueIds([x] + s) && UniqueNames([x] + s)
  {
    var r := [x] + s;
    forall i, j | 0 <= i < j < |r| ensures Apart(r[i], r[j]) {
      assert r[j] == s[j - 1];
      if i > 0 { assert r[i] == s[i - 1]; }
    }
  }

  /** Dropping the first row keeps the table invariant, and the first row
      is apart from every later one. */
  lemma TailValid(t: Table)
    requires Valid(t) && |t.rows| > 0
    ensures Valid(Table(t.rows[1..], t.nextId))
    ensures forall y :: y in t.rows[1..] ==> Apart(t.rows[0], y)
  {
    var rest := t.rows[1..];
    forall i, j | 0 <= i < j < |rest| ensures Apart(rest[i], rest[j]) {
      assert rest[i] == t.rows[i + 1] && rest[j] == t.rows[j + 1];
    }
    forall y | y in rest ensures Apart(t.rows[0], y) {
      var m :| 0 <= m < |rest| && rest[m] == y;
      assert y == t.rows[m + 1];
    }
  }

  /** Removing rows keeps the table invariant. */
  lemma {:induction false} RemoveKeepsValid(t: Table, name: string)
    requires Valid(t)
    ensures Valid(Table(RemoveNamed(t.rows, name), t.nextId))
    decreases |t.rows|
  {
    if |t.rows| > 0 {
      var rest := Table(t.rows[1..], t.nextId);
      TailValid(t);
      RemoveKeepsValid(rest, name);
      var r' := RemoveNamed(rest.rows, name);
      if !SameName(t.rows[0].name, name) {
        ConsUnique(t.rows[0], r');
        var r := [t.rows[0]] + r';
        assert RemoveNamed(t.rows, name) == r;
        forall i | 0 <= i < |r| ensures r[i].id < t.nextId {
          if i > 0 { assert r[i] == r'[i - 1]; }
        }
      }
    }
  }
}

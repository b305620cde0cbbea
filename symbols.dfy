/**
 * The trading-symbol catalogue: the rows of the `symbols` table, the newest-first order the
 * listings use, and the service that creates, lists, finds, updates and removes symbols on top
 * of the repository. The repository is the sequence of stored rows; the database's unique
 * constraint on the name is a failure of the save that would break it.
 */
module Symbols {
  import opened Wrappers
  import opened Pagination

  /** A stored symbol; `createdAt` and `updatedAt` are the database clock's readings. */
  datatype SymbolRecord = SymbolRecord(
    id: string, name: string, isPublic: bool, price: real, createdAt: int, updatedAt: int)

  /** The body of a create request: a name, and optionally the visibility and the price. */
  datatype CreateSymbolDto = CreateSymbolDto(name: string, isPublic: Option<bool>, price: Option<real>)

  /** The body of an update request: any of the three editable fields. */
  datatype UpdateSymbolDto = UpdateSymbolDto(name: Option<string>, isPublic: Option<bool>, price: Option<real>)

  /** `NotFound` is the 404 `Symbol not found`; `NameTaken` is the save refused by the unique name. */
  datatype ServiceError = NotFound(message: string) | NameTaken

  const NotFoundMessage: string := "Symbol not found"

  /** The listing reply: one page of rows, the number of rows, the page, its size and the last page. */
  datatype PaginatedResponse = PaginatedResponse(
    data: seq<SymbolRecord>, total: nat, page: int, count: int, lastPage: nat)

  /** The order `createdAt: 'DESC'`: no row is newer than the one before it. */
  predicate NewestFirst(s: seq<SymbolRecord>) {
    forall i :: 0 < i < |s| ==> s[i - 1].createdAt >= s[i].createdAt
  }

  /** `x` placed in front of the first row of `s` that is not newer than it. */
  function InsertNewestFirst(x: SymbolRecord, s: seq<SymbolRecord>): (r: seq<SymbolRecord>)
    requires NewestFirst(s)
    ensures NewestFirst(r)
    ensures multiset(r) == multiset(s) + multiset{x}
    ensures r[0] == x || (s != [] && r[0] == s[0])
  {
    if s == [] || x.createdAt >= s[0].createdAt then [x] + s
    else
      var tail := InsertNewestFirst(x, s[1..]);
      assert multiset(s) == multiset{s[0]} + multiset(s[1..]) by {
        assert s == [s[0]] + s[1..];
      }
      assert tail[0].createdAt <= s[0].createdAt;
      [s[0]] + tail
  }

  /** The rows of `s` rearranged newest first. */
  function SortNewestFirst(s: seq<SymbolRecord>): (r: seq<SymbolRecord>)
    ensures NewestFirst(r)
    ensures multiset(r) == multiset(s)
  {
    if s == [] then []
    else
      assert s == [s[0]] + s[1..];
      InsertNewestFirst(s[0], SortNewestFirst(s[1..]))
  }

  /** Rows already newest first keep their order. */
  lemma {:induction false} SortKeepsNewestFirst(s: seq<SymbolRecord>)
    requires NewestFirst(s)
    ensures SortNewestFirst(s) == s
  {
    if s != [] {
      SortKeepsNewestFirst(s[1..]);
      assert s == [s[0]] + s[1..];
    }
  }

  /** The rows of `s` whose `public` flag is set, in their order (`where: { public: true }`). */
  function PublicOnly(s: seq<SymbolRecord>): (r: seq<SymbolRecord>)
    ensures forall x :: multiset(r)[x] == if x.isPublic then multiset(s)[x] else 0
  {
    if s == [] then []
    else
      assert s == [s[0]] + s[1..];
      (if s[0].isPublic then [s[0]] else []) + PublicOnly(s[1..])
  }

  /** The index of the row with identifier `id`, looking from index `from` on. */
  function IndexOfId(rows: seq<SymbolRecord>, id: string, from: nat): (r: Option<nat>)
    requires from <= |rows|
    decreases |rows| - from
    ensures r.Some? ==> from <= r.value < |rows| && rows[r.value].id == id
    ensures r.None? ==> forall i :: from <= i < |rows| ==> rows[i].id != id
  {
    if from == |rows| then None
    else if rows[from].id == id then Some(from)
    else IndexOfId(rows, id, from + 1)
  }

  /** Some row other than the one with identifier `except` already carries `name`. */
  predicate NameInUse(rows: seq<SymbolRecord>, name: string, except: Option<string>) {
    exists i :: 0 <= i < |rows| && rows[i].name == name && (except.None? || rows[i].id != except.value)
  }

  /** The database constraints: identifiers and names are unique. */
  predicate UniqueRows(rows: seq<SymbolRecord>) {
    forall i, j :: 0 <= i < j < |rows| ==> rows[i].id != rows[j].id && rows[i].name != rows[j].name
  }

  /**
   * The row `create` builds and the save completes: `public ?? false`, `price ?? 0`, so a supplied
   * `false` or `0` is kept and only a missing field takes the default.
   */
  function NewRecord(dto: CreateSymbolDto, id: string, now: int): (r: SymbolRecord)
    ensures r.id == id && r.name == dto.name && r.createdAt == now && r.updatedAt == now
    ensures r.isPublic <==> dto.isPublic == Some(true)
    ensures r.price == if dto.price.Some? then dto.price.value else 0.0
  {
    SymbolRecord(
      id, dto.name,
      match dto.isPublic case Some(b) => b case None => false,
      match dto.price case Some(p) => p case None => 0.0,
      now, now)
  }

  /**
   * `Object.assign(symbol, dto)` followed by the save: each supplied field overwrites the stored
   * one and the others are kept. The save writes only when some column changed, so the update
   * stamp moves to `now` exactly then.
   */
  function Applied(rec: SymbolRecord, dto: UpdateSymbolDto, now: int): (r: SymbolRecord)
    ensures r.id == rec.id && r.createdAt == rec.createdAt
    ensures r.name == if dto.name.Some? then dto.name.value else rec.name
    ensures r.isPublic == if dto.isPublic.Some? then dto.isPublic.value else rec.isPublic
    ensures r.price == if dto.price.Some? then dto.price.value else rec.price
    ensures r.updatedAt == if r.name == rec.name && r.isPublic == rec.isPublic && r.price == rec.price then rec.updatedAt else now
  {
    var merged := rec.(
      name := match dto.name case Some(n) => n case None => rec.name,
      isPublic := match dto.isPublic case Some(b) => b case None => rec.isPublic,
      price := match dto.price case Some(p) => p case None => rec.price);
    if merged == rec then rec else merged.(updatedAt := now)
  }

  /** An update that supplies nothing new, the empty one included, leaves the row as it was. */
  lemma UnchangedUpdateKeepsRow(rec: SymbolRecord, dto: UpdateSymbolDto, now: int)
    requires dto.name.Some? ==> dto.name.value == rec.name
    requires dto.isPublic.Some? ==> dto.isPublic.value == rec.isPublic
    requires dto.price.Some? ==> dto.price.value == rec.price
    ensures Applied(rec, dto, now) == rec
  {
  }

  /** The listing of page `page` with `count` rows per page, over the stored rows. */
  function ListPage(rows: seq<SymbolRecord>, page: int, count: int): (r: PaginatedResponse)
    requires page >= 1 && 1 <= count
    ensures r.total == |rows| && r.page == page && r.count == count
    ensures |r.data| <= count && NewestFirst(r.data)
    ensures multiset(r.data) <= multiset(rows)
  {
    var ordered := SortNewestFirst(rows);
    var data := Window(ordered, Skip(page, count), count);
    WindowOfSorted(ordered, Skip(page, count), count);
    PaginatedResponse(data, |rows|, page, count, LastPage(|rows|, count))
  }

  /** A window of newest-first rows is newest first and is drawn from those rows. */
  lemma WindowOfSorted(s: seq<SymbolRecord>, skip: nat, take: nat)
    requires NewestFirst(s)
    ensures NewestFirst(Window(s, skip, take))
    ensures multiset(Window(s, skip, take)) <= multiset(s)
  {
    var w := Window(s, skip, take);
    if skip < |s| {
      assert w == s[skip..skip + |w|];
      WindowSubMultiset(s, skip, |w|);
    }
    forall i | 0 < i < |w| ensures w[i - 1].createdAt >= w[i].createdAt {
      assert w[i - 1] == s[skip + i - 1] && w[i] == s[skip + i];
    }
  }

  lemma WindowSubMultiset(s: seq<SymbolRecord>, lo: nat, n: nat)
    requires lo + n <= |s|
    ensures multiset(s[lo..lo + n]) <= multiset(s)
  {
    assert s == s[..lo] + s[lo..lo + n] + s[lo + n..];
  }

  /** The last page of a listing is the ceiling of the row count over the page size. */
  lemma ListedLastPage(rows: seq<SymbolRecord>, page: int, count: int)
    requires page >= 1 && 1 <= count
    ensures var r := ListPage(rows, page, count);
      && (|rows| == 0 ==> r.lastPage == 0)
      && (|rows| > 0 ==> (r.lastPage - 1) * count < |rows| <= r.lastPage * count)
      && (|r.data| > 0 <==> page <= r.lastPage)
  {
    LastPageIsCeiling(|rows|, count);
    PageNonEmptyIff(SortNewestFirst(rows), page, count);
  }

  /** Paging through the listing reaches every stored row: each is on some page up to the last. */
  lemma EveryRowListed(rows: seq<SymbolRecord>, count: int, x: SymbolRecord)
    requires 1 <= count && x in rows
    ensures exists page :: 1 <= page <= LastPage(|rows|, count) && x in ListPage(rows, page, count).data
  {
    var ordered := SortNewestFirst(rows);
    var k := SortedPosition(rows, x);
    var page, pos := RowOnItsPage(ordered, count, k);
    ListPageData(rows, page, count);
    assert ListPage(rows, page, count).data[pos] == x;
  }

  /** A stored row has a position in the newest-first order. */
  lemma SortedPosition(rows: seq<SymbolRecord>, x: SymbolRecord) returns (k: nat)
    requires x in rows
    ensures k < |SortNewestFirst(rows)| && SortNewestFirst(rows)[k] == x
  {
    var ordered := SortNewestFirst(rows);
    assert multiset(ordered)[x] == multiset(rows)[x] > 0;
    assert x in ordered;
    k :| k < |ordered| && ordered[k] == x;
  }

  /** The rows of a listing page are a window of the newest-first order. */
  lemma ListPageData(rows: seq<SymbolRecord>, page: int, count: int)
    requires page >= 1 && 1 <= count
    ensures ListPage(rows, page, count).data == Window(SortNewestFirst(rows), Skip(page, count), count)
  {
  }

  /** The rows `findPublic` returns: the public ones, newest first. */
  function PublicListing(rows: seq<SymbolRecord>): (r: seq<SymbolRecord>)
    ensures NewestFirst(r)
    ensures forall x :: multiset(r)[x] == if x.isPublic then multiset(rows)[x] else 0
  {
    SortNewestFirst(PublicOnly(rows))
  }

  /** A public row is listed publicly and a private row is not. */
  lemma PublicListingMembership(rows: seq<SymbolRecord>, x: SymbolRecord)
    ensures x in PublicListing(rows) <==> x in rows && x.isPublic
  {
    assert x in PublicListing(rows) <==> multiset(PublicListing(rows))[x] > 0;
    assert x in rows <==> multiset(rows)[x] > 0;
  }

  /** The rows of `rows` except those with identifier `id`, in their order: a delete by key. */
  function WithoutId(rows: seq<SymbolRecord>, id: string): seq<SymbolRecord> {
    if rows == [] then []
    else if rows[0].id == id then WithoutId(rows[1..], id)
    else [rows[0]] + WithoutId(rows[1..], id)
  }

  /** Deleting by key keeps exactly the rows with another identifier. */
  lemma {:induction false} WithoutIdMembership(rows: seq<SymbolRecord>, id: string)
    ensures forall x :: x in WithoutId(rows, id) <==> x in rows && x.id != id
  {
    if rows != [] {
      WithoutIdMembership(rows[1..], id);
      assert forall x :: x in rows <==> x == rows[0] || x in rows[1..];
    }
  }

  /** Deleting by key keeps identifiers and names unique. */
  lemma {:induction false} WithoutIdKeepsUnique(rows: seq<SymbolRecord>, id: string)
    requires UniqueRows(rows)
    ensures UniqueRows(WithoutId(rows, id))
  {
    if rows != [] {
      var rest := WithoutId(rows[1..], id);
      UniqueTail(rows);
      WithoutIdKeepsUnique(rows[1..], id);
      if rows[0].id != id {
        WithoutIdMembership(rows[1..], id);
        var r := [rows[0]] + rest;
        forall a, b | 0 <= a < b < |r| ensures r[a].id != r[b].id && r[a].name != r[b].name {
          assert r[b] == rest[b - 1] && r[b] in rest;
          if a > 0 {
            assert r[a] == rest[a - 1];
          }
        }
      }
    }
  }

  /** When row `i` is the only one with identifier `id`, deleting by `id` removes exactly that row. */
  lemma {:induction false} WithoutIdDropsOne(rows: seq<SymbolRecord>, id: string, i: nat)
    requires i < |rows| && rows[i].id == id
    requires forall k :: 0 <= k < |rows| && k != i ==> rows[k].id != id
    ensures WithoutId(rows, id) == rows[..i] + rows[i + 1..]
  {
    var tail := rows[1..];
    if i == 0 {
      assert WithoutId(rows, id) == WithoutId(tail, id);
      forall k | 0 <= k < |tail| ensures tail[k].id != id {
        assert tail[k] == rows[k + 1];
      }
      WithoutAbsentId(tail, id);
      assert rows[..0] + rows[1..] == tail;
    } else {
      assert rows[0].id != id;
      assert WithoutId(rows, id) == [rows[0]] + WithoutId(tail, id);
      forall k | 0 <= k < |tail| && k != i - 1 ensures tail[k].id != id {
        assert tail[k] == rows[k + 1];
      }
      WithoutIdDropsOne(tail, id, i - 1);
      calc {
        [rows[0]] + (tail[..i - 1] + tail[i..]);
        ([rows[0]] + tail[..i - 1]) + tail[i..];
        { assert [rows[0]] + tail[..i - 1] == rows[..i]; assert tail[i..] == rows[i + 1..]; }
        rows[..i] + rows[i + 1..];
      }
    }
  }

  /** Below a row of a unique table, the rest is unique too and repeats neither its id nor its name. */
  lemma UniqueTail(rows: seq<SymbolRecord>)
    requires rows != [] && UniqueRows(rows)
    ensures UniqueRows(rows[1..])
    ensures forall x :: x in rows[1..] ==> x.id != rows[0].id && x.name != rows[0].name
  {
    var tail := rows[1..];
    forall a, b | 0 <= a < b < |tail| ensures tail[a].id != tail[b].id && tail[a].name != tail[b].name {
      assert tail[a] == rows[a + 1] && tail[b] == rows[b + 1];
    }
    forall x | x in tail ensures x.id != rows[0].id && x.name != rows[0].name {
      var k :| 0 <= k < |tail| && tail[k] == x;
      assert rows[k + 1] == x;
    }
  }

  /** Deleting an identifier no row carries changes nothing. */
  lemma {:induction false} WithoutAbsentId(rows: seq<SymbolRecord>, id: string)
    requires forall k :: 0 <= k < |rows| ==> rows[k].id != id
    ensures WithoutId(rows, id) == rows
  {
    if rows != [] {
      WithoutAbsentId(rows[1..], id);
      assert rows == [rows[0]] + rows[1..];
    }
  }

  /** `rows.map(s => s.name)`. */
  function Names(rows: seq<SymbolRecord>): (r: seq<string>)
    ensures |r| == |rows|
    ensures forall i :: 0 <= i < |rows| ==> r[i] == rows[i].name
  {
    if rows == [] then [] else [rows[0].name] + Names(rows[1..])
  }

  /** `rows.find(s => s.name === name)` from index `from` on, as the row found. */
  function FindByName(rows: seq<SymbolRecord>, name: string, from: nat): (r: Option<SymbolRecord>)
    requires from <= |rows|
    decreases |rows| - from
    ensures r.Some? ==> r.value.name == name && r.value in rows[from..]
    ensures r.Some? ==> exists i :: from <= i < |rows| && rows[i] == r.value && forall j :: from <= j < i ==> rows[j].name != name
    ensures r.None? <==> forall i :: from <= i < |rows| ==> rows[i].name != name
  {
    if from == |rows| then None
    else if rows[from].name == name then Some(rows[from])
    else FindByName(rows, name, from + 1)
  }

  /** A name is found among rows exactly when it is one of their names. */
  lemma FoundIffNamed(rows: seq<SymbolRecord>, name: string)
    ensures FindByName(rows, name, 0).Some? <==> name in Names(rows)
  {
    if name in Names(rows) {
      var i :| 0 <= i < |rows| && Names(rows)[i] == name;
      assert rows[i].name == name;
    }
  }

  /** The symbol service over its repository. */
  class SymbolsService {
    /** The stored rows, in storage order. */
    var rows: seq<SymbolRecord>

    ghost predicate Valid()
      reads this
    {
      UniqueRows(rows)
    }

    constructor ()
      ensures Valid() && rows == []
    {
      rows := [];
    }

    /** `findOne(id)`: the row with that identifier, or `Symbol not found`. */
    function FindOne(id: string): (r: Result<SymbolRecord, ServiceError>)
      reads this
      ensures r.Success? ==> r.value in rows && r.value.id == id
      ensures r.Failure? <==> forall i :: 0 <= i < |rows| ==> rows[i].id != id
      ensures r.Failure? ==> r.error == NotFound(NotFoundMessage)
    {
      match IndexOfId(rows, id, 0)
      case None => Failure(NotFound(NotFoundMessage))
      case Some(i) => Success(rows[i])
    }

    /** `findPublic()`: the public rows, newest first. */
    function FindPublic(): (r: seq<SymbolRecord>)
      reads this
      ensures NewestFirst(r)
      ensures forall x :: multiset(r)[x] == if x.isPublic then multiset(rows)[x] else 0
    {
      PublicListing(rows)
    }

    /** `findAll(dto)`: the requested page of all rows, newest first, with the totals. */
    function FindAll(dto: PaginationDto): (r: PaginatedResponse)
      requires IsValid(dto)
      reads this
      ensures r.total == |rows| && r.page == PageOf(dto) && r.count == CountOf(dto)
      ensures r.lastPage == LastPage(|rows|, r.count)
      ensures r.data == Window(SortNewestFirst(rows), Skip(r.page, r.count), r.count)
    {
      ListPage(rows, PageOf(dto), CountOf(dto))
    }

    /**
     * `create(dto)`: a new row with the defaults filled in, saved under the fresh identifier
     * `newId` at time `now`; the save fails when the name is already taken.
     */
    method Create(dto: CreateSymbolDto, newId: string, now: int) returns (r: Result<SymbolRecord, ServiceError>)
      requires Valid()
      requires forall i :: 0 <= i < |rows| ==> rows[i].id != newId
      modifies this
      ensures Valid()
      ensures NameInUse(old(rows), dto.name, None) ==> r == Failure(NameTaken) && rows == old(rows)
      ensures !NameInUse(old(rows), dto.name, None) ==>
        r == Success(NewRecord(dto, newId, now)) && rows == old(rows) + [r.value]
    {
      if exists i :: 0 <= i < |rows| && rows[i].name == dto.name {
        return Failure(NameTaken);
      }
      var rec := NewRecord(dto, newId, now);
      rows := rows + [rec];
      r := Success(rec);
    }

    /**
     * `update(id, dto)`: the row is looked up first (`Symbol not found` when absent), then the
     * supplied fields are written over it and it is saved at time `now`; the save fails when
     * another row already has the new name.
     */
    method Update(id: string, dto: UpdateSymbolDto, now: int) returns (r: Result<SymbolRecord, ServiceError>)
      requires Valid()
      modifies this
      ensures Valid()
      ensures old(FindOne(id)).Failure? ==> r == old(FindOne(id)) && rows == old(rows)
      ensures old(FindOne(id)).Success? && dto.name.Some? && NameInUse(old(rows), dto.name.value, Some(id)) ==>
        r == Failure(NameTaken) && rows == old(rows)
      ensures old(FindOne(id)).Success? && !(dto.name.Some? && NameInUse(old(rows), dto.name.value, Some(id))) ==>
        && r == Success(Applied(old(FindOne(id)).value, dto, now))
        && |rows| == |old(rows)|
        && forall i :: 0 <= i < |rows| ==> rows[i] == if old(rows)[i].id == id then r.value else old(rows)[i]
    {
      var found := IndexOfId(rows, id, 0);
      if found.None? {
        return Failure(NotFound(NotFoundMessage));
      }
      var i := found.value;
      if dto.name.Some? && exists j :: 0 <= j < |rows| && rows[j].name == dto.name.value && rows[j].id != id {
        return Failure(NameTaken);
      }
      var rec := Applied(rows[i], dto, now);
      rows := rows[i := rec];
      r := Success(rec);
    }

    /** `remove(id)`: the row is looked up first (`Symbol not found` when absent), then deleted. */
    method Remove(id: string) returns (r: Result<(), ServiceError>)
      requires Valid()
      modifies this
      ensures Valid()
      ensures old(FindOne(id)).Failure? ==> r == Failure(NotFound(NotFoundMessage)) && rows == old(rows)
      ensures old(FindOne(id)).Success? ==>
        r == Success(()) && rows == WithoutId(old(rows), id) && |rows| == |old(rows)| - 1
    {
      var found := IndexOfId(rows, id, 0);
      if found.None? {
        return Failure(NotFound(NotFoundMessage));
      }
      forall k | 0 <= k < |rows| && k != found.value ensures rows[k].id != id {
        assert k < found.value || found.value < k;
      }
      WithoutIdDropsOne(rows, id, found.value);
      WithoutIdKeepsUnique(rows, id);
      rows := WithoutId(rows, id);
      r := Success(());
    }
  }
}

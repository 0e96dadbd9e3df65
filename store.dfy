/** The two stores (LiteratureRepository and SearchRecordRepository): the
    rows they hold, appending saves, and the term query the search runs. */
module Store {
  import opened Common
  import opened Entities

  /** `LOWER(field) LIKE LOWER('%' || term || '%')`: a null column never
      matches; otherwise the term occurs in the column, ignoring case. */
  predicate FieldMatches(field: Option<string>, term: string) {
    field.Some? && Contains(Lower(field.value), Lower(term))
  }

  /** The WHERE clause of findBySearchTerm: title, abstract, authors or
      keywords. */
  predicate Matches(l: Literature, term: string)
    ensures Matches(l, term) ==> l.title.Some? || l.abstractText.Some? || l.authors.Some? || l.keywords.Some?
  {
    FieldMatches(l.title, term) || FieldMatches(l.abstractText, term)
    || FieldMatches(l.authors, term) || FieldMatches(l.keywords, term)
  }

  /** The rows a term query returns, in store order. */
  function Filter(rows: seq<Literature>, term: string): (r: seq<Literature>)
    ensures |r| <= |rows|
  {
    if rows == [] then []
    else
      var last := rows[|rows| - 1];
      Filter(rows[..|rows| - 1], term) + (if Matches(last, term) then [last] else [])
  }

  /** A row is returned iff it is stored and matches. */
  lemma {:induction false} FilterMembership(rows: seq<Literature>, term: string)
    ensures forall l :: l in Filter(rows, term) <==> l in rows && Matches(l, term)
  {
    if rows != [] {
      var init := rows[..|rows| - 1];
      FilterMembership(init, term);
      assert rows == init + [rows[|rows| - 1]];
    }
  }

  /** The query over rows saved in two batches is the query over each batch,
      in order. */
  lemma {:induction false} FilterAppend(xs: seq<Literature>, ys: seq<Literature>, term: string)
    ensures Filter(xs + ys, term) == Filter(xs, term) + Filter(ys, term)
    decreases |ys|
  {
    if ys == [] {
      assert xs + ys == xs;
    } else {
      var init := ys[..|ys| - 1];
      assert (xs + ys)[..|xs + ys| - 1] == xs + init;
      assert (xs + ys)[|xs + ys| - 1] == ys[|ys| - 1];
      FilterAppend(xs, init, term);
    }
  }

  /** The query keeps every row when every row matches. */
  lemma {:induction false} FilterKeepsMatchingRows(rows: seq<Literature>, term: string)
    requires forall k :: 0 <= k < |rows| ==> Matches(rows[k], term)
    ensures Filter(rows, term) == rows
  {
    if rows != [] {
      var init := rows[..|rows| - 1];
      assert forall k :: 0 <= k < |init| ==> Matches(init[k], term) by {
        forall k | 0 <= k < |init| ensures Matches(init[k], term) {
          assert init[k] == rows[k];
        }
      }
      FilterKeepsMatchingRows(init, term);
      var last := rows[|rows| - 1];
      assert Matches(last, term);
      assert Filter(rows, term) == Filter(init, term) + [last];
      assert init + [last] == rows;
    }
  }

  /** Running the query on its own answer gives the answer back. */
  lemma FilterIdempotent(rows: seq<Literature>, term: string)
    ensures Filter(Filter(rows, term), term) == Filter(rows, term)
  {
    var r := Filter(rows, term);
    assert forall k :: 0 <= k < |r| ==> Matches(r[k], term) by {
      FilterMembership(rows, term);
      forall k | 0 <= k < |r| ensures Matches(r[k], term) {
        assert r[k] in r;
      }
    }
    FilterKeepsMatchingRows(r, term);
  }

  lemma {:induction false} LowerIdempotent(s: string)
    ensures Lower(Lower(s)) == Lower(s)
  {
    var once := Lower(s);
    assert forall k :: 0 <= k < |s| ==> Lower(once)[k] == once[k];
  }

  /** The case of the term does not matter: the lower-cased term finds the
      same rows. */
  lemma {:induction false} FilterIgnoresTermCase(rows: seq<Literature>, term: string)
    ensures Filter(rows, Lower(term)) == Filter(rows, term)
  {
    LowerIdempotent(term);
    if rows != [] {
      FilterIgnoresTermCase(rows[..|rows| - 1], term);
    }
  }

  /** A record whose title holds the term, in any case, is found. */
  lemma TitleHoldingTermIsFound(rows: seq<Literature>, k: nat, term: string, i: nat)
    requires k < |rows| && rows[k].title.Some?
    requires var t := Lower(rows[k].title.value); i + |term| <= |t| && t[i..i + |term|] == Lower(term)
    ensures rows[k] in Filter(rows, term)
  {
    ContainsAt(Lower(rows[k].title.value), Lower(term), i);
    FilterMembership(rows, term);
  }

  /** The empty term finds every row with a non-null title, abstract,
      authors or keywords column. */
  lemma EmptyTermMatchesAnyFilledColumn(l: Literature)
    ensures Matches(l, "") <==> l.title.Some? || l.abstractText.Some? || l.authors.Some? || l.keywords.Some?
  {
  }

  /** The literature store: its rows in insertion order. */
  class LiteratureRepository {
    var rows: seq<Literature>

    constructor(initial: seq<Literature>)
      ensures rows == initial
    {
      rows := initial;
    }

    /** saveAll: the records are appended, in order. */
    method SaveAll(items: seq<Literature>)
      modifies this
      ensures rows == old(rows) + items
    {
      rows := rows + items;
    }

    /** findBySearchTerm: the matching rows, in store order. */
    function FindBySearchTerm(term: string): (r: seq<Literature>)
      reads this
      ensures |r| <= |rows|
      ensures forall l :: l in r <==> l in rows && Matches(l, term)
      ensures r == [] <==> forall k :: 0 <= k < |rows| ==> !Matches(rows[k], term)
    {
      var r := Filter(rows, term);
      FilterMembership(rows, term);
      assert r == [] <==> forall k :: 0 <= k < |rows| ==> !Matches(rows[k], term) by {
        if r != [] {
          assert r[0] in r;
        }
        if exists k :: 0 <= k < |rows| && Matches(rows[k], term) {
          var k :| 0 <= k < |rows| && Matches(rows[k], term);
          assert rows[k] in r;
        }
      }
      r
    }

    /** A rolled-back transaction leaves the rows it started with. */
    method Rollback(snapshot: seq<Literature>)
      modifies this
      ensures rows == snapshot
    {
      rows := snapshot;
    }
  }

  /** The search record store: its rows in insertion order. */
  class SearchRecordRepository {
    var records: seq<SearchRecord>

    constructor(initial: seq<SearchRecord>)
      ensures records == initial
    {
      records := initial;
    }

    /** save: the record is appended. */
    method Save(record: SearchRecord)
      modifies this
      ensures records == old(records) + [record]
    {
      records := records + [record];
    }

    method Rollback(snapshot: seq<SearchRecord>)
      modifies this
      ensures records == snapshot
    {
      records := snapshot;
    }
  }
}

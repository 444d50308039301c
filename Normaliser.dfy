/**
 * `normalise_records` without its file writes: the `listings` projection and
 * the four join tables from a listing to its directors, cast members,
 * producer countries and categories.
 */
module Normaliser {
  import opened Records

  /** The keys of a `listings` row, in the order the source lists them. */
  const ListingKeys: seq<string> := ["listing_id", "platform", "show_id", "type", "title", "date_added",
    "added_year", "added_month", "added_day_of_month", "added_day_of_week", "release_year",
    "years_after_release", "rating", "movie_duration", "tv_series_seasons", "description"]

  /** One `listings` row: each listed key with the record's value under it, or None. */
  function ListingRow(r: Record): (row: Record)
    ensures row.Keys == set k | k in ListingKeys
    ensures forall k :: k in row ==> row[k] == Get(r, k)
  {
    map k | k in ListingKeys :: Get(r, k)
  }

  /** The `listings` comprehension: one row per record, in input order. */
  function Listings(records: seq<Record>): (rows: seq<Record>)
    ensures |rows| == |records|
    ensures forall i :: 0 <= i < |records| ==> rows[i] == ListingRow(records[i])
  {
    seq(|records|, i requires 0 <= i < |records| => ListingRow(records[i]))
  }

  /** The list fields a join table is built from. */
  const ListKeys: set<string> := {"directors", "casts", "producer_countries", "categories"}

  /**
   * The records `normalise_records` accepts: `r["listing_id"]` exists and each
   * list field is absent, None or a list of strings. A string or a number there
   * would be iterated or rejected by `set()`; enriched records never hold one.
   */
  predicate Normalisable(r: Record) {
    && "listing_id" in r
    && forall key :: key in ListKeys && key in r ==> r[key] == Null || r[key].StrList?
  }

  /** `r.get(key) or []` for a list field. */
  function ListField(r: Record, key: string): seq<string> {
    var v := Get(r, key);
    if v.StrList? then v.items else []
  }

  /** `set(r.get(key) or [])`: the distinct values of a list field. */
  function ValueSet(r: Record, key: string): (values: set<string>)
    ensures forall x :: x in values <==> x in ListField(r, key)
  {
    set x | x in ListField(r, key)
  }

  /** A join-table row `{"listing_id": ..., <column>: value}`. */
  datatype JoinRow = JoinRow(listingId: Value, value: string)

  function Values(rows: seq<JoinRow>): (values: seq<string>)
    ensures |values| == |rows|
    ensures forall j :: 0 <= j < |rows| ==> values[j] == rows[j].value
  {
    seq(|rows|, j requires 0 <= j < |rows| => rows[j].value)
  }

  /**
   * The rows one record contributes: all with its listing id, and each of its
   * distinct values exactly once, in the unspecified order of the set.
   */
  predicate IsBlock(id: Value, values: set<string>, block: seq<JoinRow>) {
    && (forall j :: 0 <= j < |block| ==> block[j].listingId == id)
    && multiset(Values(block)) == multiset(values)
  }

  /**
   * A join table for `key`: the blocks of the records one after the other, in
   * record order.
   */
  predicate IsJoinTable(records: seq<Record>, key: string, table: seq<JoinRow>)
    decreases |records|
  {
    if records == [] then table == []
    else
      var r := records[|records| - 1];
      var n := |ValueSet(r, key)|;
      && n <= |table|
      && IsJoinTable(records[..|records| - 1], key, table[..|table| - n])
      && IsBlock(Get(r, "listing_id"), ValueSet(r, key), table[|table| - n..])
  }

  /** `for value in values: table.append({"listing_id": id, <column>: value})`, in any order. */
  method AppendBlock(table: seq<JoinRow>, id: Value, values: set<string>) returns (extended: seq<JoinRow>)
    ensures |extended| == |table| + |values|
    ensures extended[..|table|] == table
    ensures IsBlock(id, values, extended[|table|..])
  {
    extended := table;
    var remaining := values;
    while remaining != {}
      invariant remaining <= values
      invariant |extended| == |table| + |values| - |remaining|
      invariant extended[..|table|] == table
      invariant forall j :: |table| <= j < |extended| ==> extended[j].listingId == id
      invariant multiset(Values(extended[|table|..])) + multiset(remaining) == multiset(values)
      decreases |remaining|
    {
      var value :| value in remaining;
      var block := extended[|table|..];
      extended := extended + [JoinRow(id, value)];
      assert extended[|table|..] == block + [JoinRow(id, value)];
      assert Values(block + [JoinRow(id, value)]) == Values(block) + [value];
      assert multiset(remaining - {value}) + multiset{value} == multiset(remaining);
      remaining := remaining - {value};
    }
  }

  /** A join table followed by the next record's block is the join table of both. */
  lemma JoinTableSnoc(front: seq<Record>, r: Record, key: string, table: seq<JoinRow>, block: seq<JoinRow>)
    requires IsJoinTable(front, key, table)
    requires |block| == |ValueSet(r, key)|
    requires IsBlock(Get(r, "listing_id"), ValueSet(r, key), block)
    ensures IsJoinTable(front + [r], key, table + block)
  {
    var records := front + [r];
    var extended := table + block;
    assert records[|records| - 1] == r;
    assert records[..|records| - 1] == front;
    assert extended[..|extended| - |block|] == table;
    assert extended[|extended| - |block|..] == block;
  }

  /** One join table's share of a loop turn: the block of record `r` appended. */
  method AppendRecordBlock(ghost front: seq<Record>, r: Record, id: Value, key: string, table: seq<JoinRow>)
    returns (extended: seq<JoinRow>)
    requires id == Get(r, "listing_id")
    requires IsJoinTable(front, key, table)
    ensures IsJoinTable(front + [r], key, extended)
  {
    extended := AppendBlock(table, id, ValueSet(r, key));
    JoinTableSnoc(front, r, key, table, extended[|table|..]);
    assert extended == table + extended[|table|..];
  }

  /**
   * `normalise_records` without its file writes: the `listings` rows and the
   * four join tables, each a block per record in record order.
   */
  method NormaliseRecords(records: seq<Record>)
    returns (listings: seq<Record>, directors: seq<JoinRow>, casts: seq<JoinRow>,
             producerCountries: seq<JoinRow>, categories: seq<JoinRow>)
    requires forall i :: 0 <= i < |records| ==> Normalisable(records[i])
    ensures listings == Listings(records)
    ensures IsJoinTable(records, "directors", directors)
    ensures IsJoinTable(records, "casts", casts)
    ensures IsJoinTable(records, "producer_countries", producerCountries)
    ensures IsJoinTable(records, "categories", categories)
  {
    listings := Listings(records);
    directors, casts, producerCountries, categories := [], [], [], [];
    var i := 0;
    ghost var done: seq<Record> := [];
    while i < |records|
      invariant 0 <= i <= |records| && done == records[..i]
      invariant IsJoinTable(done, "directors", directors)
      invariant IsJoinTable(done, "casts", casts)
      invariant IsJoinTable(done, "producer_countries", producerCountries)
      invariant IsJoinTable(done, "categories", categories)
    {
      var r := records[i];
      PrefixSnoc(records, i);
      var id := r["listing_id"];
      directors := AppendRecordBlock(done, r, id, "directors", directors);
      casts := AppendRecordBlock(done, r, id, "casts", casts);
      producerCountries := AppendRecordBlock(done, r, id, "producer_countries", producerCountries);
      categories := AppendRecordBlock(done, r, id, "categories", categories);
      done := done + [r];
      i := i + 1;
    }
    assert done == records;
  }

  lemma PrefixSnoc(s: seq<Record>, i: nat)
    requires i < |s|
    ensures s[..i + 1] == s[..i] + [s[i]]
  {
  }

  /** The number of join-table rows `records` contribute for `key`. */
  function RowCount(records: seq<Record>, key: string): nat
  {
    if records == [] then 0 else RowCount(records[..|records| - 1], key) + |ValueSet(records[|records| - 1], key)|
  }

  /** A join table has one row per distinct value of each record. */
  lemma {:induction false} JoinTableLength(records: seq<Record>, key: string, table: seq<JoinRow>)
    requires IsJoinTable(records, key, table)
    ensures |table| == RowCount(records, key)
  {
    if records != [] {
      var n := |ValueSet(records[|records| - 1], key)|;
      JoinTableLength(records[..|records| - 1], key, table[..|table| - n]);
    }
  }

  /**
   * Record `i`'s rows form one contiguous block, after the blocks of the
   * records before it: record order is kept.
   */
  lemma {:induction false} JoinTableBlock(records: seq<Record>, key: string, table: seq<JoinRow>, i: nat)
    requires IsJoinTable(records, key, table)
    requires i < |records|
    ensures RowCount(records[..i + 1], key) <= |table|
    ensures RowCount(records[..i + 1], key) == RowCount(records[..i], key) + |ValueSet(records[i], key)|
    ensures IsBlock(Get(records[i], "listing_id"), ValueSet(records[i], key),
      table[RowCount(records[..i], key)..RowCount(records[..i + 1], key)])
  {
    var last := |records| - 1;
    var n := |ValueSet(records[last], key)|;
    var front := records[..last];
    var head := table[..|table| - n];
    PrefixSnoc(records, i);
    PrefixSnoc(records, last);
    if i == last {
      JoinTableLength(front, key, head);
      JoinTableLength(records, key, table);
      assert records[..i + 1] == records;
      assert table[|table| - n..|table|] == table[|table| - n..];
    } else {
      JoinTableBlock(front, key, head, i);
      PrefixOfPrefix(records, i, last);
      PrefixOfPrefix(records, i + 1, last);
      SliceOfPrefix(table, RowCount(records[..i], key), RowCount(records[..i + 1], key), |table| - n);
    }
  }

  lemma PrefixOfPrefix<T>(s: seq<T>, i: nat, j: nat)
    requires i <= j <= |s|
    ensures s[..j][..i] == s[..i]
  {
  }

  lemma SliceOfPrefix<T>(s: seq<T>, lo: nat, hi: nat, j: nat)
    requires lo <= hi <= j <= |s|
    ensures s[..j][lo..hi] == s[lo..hi]
  {
  }

  /** A value seen twice in a sequence counts at least twice in its multiset. */
  lemma RepeatCounts(s: seq<string>, j: nat, k: nat)
    requires j < k < |s| && s[j] == s[k]
    ensures multiset(s)[s[k]] >= 2
  {
    assert s == s[..k] + [s[k]] + s[k + 1..];
    assert s[..k][j] == s[k];
  }

  /** No value repeats within a block: `set` removed the duplicates. */
  lemma BlockHasNoDuplicates(id: Value, values: set<string>, block: seq<JoinRow>)
    requires IsBlock(id, values, block)
    ensures forall j, k :: 0 <= j < k < |block| ==> block[j] != block[k]
  {
    forall j, k | 0 <= j < k < |block|
      ensures block[j] != block[k]
    {
      if block[j] == block[k] {
        RepeatCounts(Values(block), j, k);
        assert false;
      }
    }
  }

  /** Every distinct value of the record has a row in its block, and no other value has. */
  lemma BlockValues(id: Value, values: set<string>, block: seq<JoinRow>, v: string)
    requires IsBlock(id, values, block)
    ensures v in values <==> exists j :: 0 <= j < |block| && block[j] == JoinRow(id, v)
  {
    if v in values {
      assert v in multiset(Values(block));
      var j :| 0 <= j < |block| && Values(block)[j] == v;
      assert block[j] == JoinRow(id, v);
    } else {
      forall j | 0 <= j < |block|
        ensures block[j] != JoinRow(id, v)
      {
        assert Values(block)[j] in multiset(Values(block));
      }
    }
  }

  /** A list field of `["A", "B", "A"]` contributes two rows: duplicates are dropped. */
  lemma DuplicateValuesCollapse()
    ensures |ValueSet(map["listing_id" := Str("netflix-s1"), "directors" := StrList(["A", "B", "A"])], "directors")| == 2
  {
    var r := map["listing_id" := Str("netflix-s1"), "directors" := StrList(["A", "B", "A"])];
    assert ListField(r, "directors") == ["A", "B", "A"];
    assert ValueSet(r, "directors") == {"A", "B"};
  }

  /** A None or missing list field contributes no rows. */
  lemma NullListContributesNothing(r: Record, key: string)
    requires Get(r, key) == Null
    ensures ValueSet(r, key) == {}
  {
    assert ListField(r, key) == [];
  }
}

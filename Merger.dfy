/**
 * `merge_input_data`: every row of every extracted CSV file, tagged with the
 * platform its file names and a listing identifier, in file order and row
 * order. Discovering the files and reading them are left to the caller: each
 * file is given as its path and its parsed rows.
 */
module Merger {
  import opened Records
  import opened Text

  datatype CsvFile = CsvFile(path: string, rows: seq<CsvRecord>)

  const ExtractedDir: string := "data/extracted/"
  const ExtractedDirWindows: string := "data/extracted\\"
  const TitlesSuffix: string := "_titles.csv"

  predicate IsSuffix(suffix: string, s: string) {
    |suffix| <= |s| && s[|s| - |suffix|..] == suffix
  }

  /** `s.removeprefix(prefix)` */
  function RemovePrefix(s: string, prefix: string): (r: string)
    ensures prefix <= s ==> prefix + r == s
    ensures !(prefix <= s) ==> r == s
  {
    if prefix <= s then s[|prefix|..] else s
  }

  /** `s.removesuffix(suffix)` */
  function RemoveSuffix(s: string, suffix: string): (r: string)
    ensures IsSuffix(suffix, s) ==> r + suffix == s
    ensures !IsSuffix(suffix, s) ==> r == s
  {
    if IsSuffix(suffix, s) then s[..|s| - |suffix|] else s
  }

  /** The platform a file path names: the path without the extraction directory and `_titles.csv`. */
  function Platform(path: string): string {
    RemoveSuffix(RemovePrefix(RemovePrefix(path, ExtractedDir), ExtractedDirWindows), TitlesSuffix)
  }

  /** `str(record.get("show_id"))`: a missing show_id renders as `None`. */
  function ShowIdText(row: CsvRecord): string {
    if "show_id" in row then row["show_id"] else "None"
  }

  /** `f"{platform}-{record.get('show_id')}"` */
  function ListingId(platform: string, row: CsvRecord): string {
    platform + "-" + ShowIdText(row)
  }

  /** `{"listing_id": ..., "platform": ..., **record}`: the row's own columns win over the two tags. */
  function Tag(platform: string, row: CsvRecord): (r: CsvRecord)
    ensures r.Keys == row.Keys + {"listing_id", "platform"}
    ensures forall k :: k in row ==> r[k] == row[k]
    ensures "listing_id" !in row ==> r["listing_id"] == ListingId(platform, row)
    ensures "platform" !in row ==> r["platform"] == platform
  {
    map["listing_id" := ListingId(platform, row), "platform" := platform] + row
  }

  /** The rows of one file, tagged, in file order. */
  function TagFile(file: CsvFile): (rows: seq<CsvRecord>)
    ensures |rows| == |file.rows|
    ensures forall j :: 0 <= j < |rows| ==> rows[j] == Tag(Platform(file.path), file.rows[j])
  {
    seq(|file.rows|, j requires 0 <= j < |file.rows| => Tag(Platform(file.path), file.rows[j]))
  }

  /** The merged rows of `files`: each file's tagged rows, one file after the other. */
  function Merged(files: seq<CsvFile>): seq<CsvRecord>
  {
    if files == [] then [] else Merged(files[..|files| - 1]) + TagFile(files[|files| - 1])
  }

  /** The number of rows in `files`. */
  function TotalRows(files: seq<CsvFile>): nat
  {
    if files == [] then 0 else TotalRows(files[..|files| - 1]) + |files[|files| - 1].rows|
  }

  /** `merge_input_data` over files already found and read. */
  method MergeInputData(files: seq<CsvFile>) returns (merged: seq<CsvRecord>)
    ensures merged == Merged(files)
    ensures |merged| == TotalRows(files)
  {
    merged := [];
    var i := 0;
    while i < |files|
      invariant 0 <= i <= |files|
      invariant merged == Merged(files[..i])
    {
      var file := files[i];
      var platform := Platform(file.path);
      var records := seq(|file.rows|, j requires 0 <= j < |file.rows| => Tag(platform, file.rows[j]));
      assert files[..i + 1][..i] == files[..i];
      merged := merged + records;
      i := i + 1;
    }
    assert files[..i] == files;
    MergedLength(files);
  }

  /** The merged output has as many rows as all files together. */
  lemma {:induction false} MergedLength(files: seq<CsvFile>)
    ensures |Merged(files)| == TotalRows(files)
  {
    if files != [] {
      MergedLength(files[..|files| - 1]);
    }
  }

  /**
   * Row `j` of file `f` is, tagged, at position `TotalRows(files[..f]) + j`:
   * files keep their order and each file keeps its row order.
   */
  lemma {:induction false} MergedAt(files: seq<CsvFile>, f: nat, j: nat)
    requires f < |files| && j < |files[f].rows|
    ensures TotalRows(files[..f]) + j < |Merged(files)|
    ensures Merged(files)[TotalRows(files[..f]) + j] == Tag(Platform(files[f].path), files[f].rows[j])
  {
    var init := files[..|files| - 1];
    MergedLength(init);
    if f == |files| - 1 {
      assert files[..f] == init;
    } else {
      assert init[..f] == files[..f];
      MergedAt(init, f, j);
    }
  }

  /** A file under the extraction directory named `<platform>_titles.csv` gives that platform. */
  lemma PlatformOfTitlesFile(dir: string, platform: string)
    requires dir == ExtractedDir || dir == ExtractedDirWindows
    requires '\\' !in platform
    ensures Platform(dir + platform + TitlesSuffix) == platform
  {
    var path := dir + platform + TitlesSuffix;
    var rest := platform + TitlesSuffix;
    if dir == ExtractedDir {
      assert ExtractedDir <= path;
      assert RemovePrefix(path, ExtractedDir) == rest;
    } else {
      assert path[14] != ExtractedDir[14];
      assert RemovePrefix(path, ExtractedDir) == path;
    }
    if |rest| >= |ExtractedDirWindows| {
      if |platform| > 14 {
        assert rest[14] == platform[14];
      } else {
        assert rest[14] == TitlesSuffix[14 - |platform|];
      }
      assert rest[14] != ExtractedDirWindows[14];
    }
    assert IsSuffix(TitlesSuffix, rest);
    assert rest[..|rest| - |TitlesSuffix|] == platform;
  }

  /** `amazon_prime_titles.csv` gives the platform `amazon_prime`: the underscore stays. */
  lemma AmazonPrimePlatform()
    ensures Platform("data/extracted/amazon_prime_titles.csv") == "amazon_prime"
  {
    var platform := "amazon_prime";
    assert '\\' !in platform;
    assert ExtractedDir + platform + TitlesSuffix == "data/extracted/amazon_prime_titles.csv";
    PlatformOfTitlesFile(ExtractedDir, platform);
  }

  /** Listing identifiers tell platforms and show ids apart when platform names have no `-`. */
  lemma ListingIdInjective(p1: string, r1: CsvRecord, p2: string, r2: CsvRecord)
    requires '-' !in p1 && '-' !in p2
    requires ListingId(p1, r1) == ListingId(p2, r2)
    ensures p1 == p2 && ShowIdText(r1) == ShowIdText(r2)
  {
    var id := ListingId(p1, r1);
    assert id == p1 + ['-'] + ShowIdText(r1);
    assert id == p2 + ['-'] + ShowIdText(r2);
    IndexOfAfter(p1, '-', ShowIdText(r1));
    IndexOfAfter(p2, '-', ShowIdText(r2));
    assert p1 == id[..|p1|] && p2 == id[..|p2|];
    assert ShowIdText(r1) == id[|p1| + 1..] && ShowIdText(r2) == id[|p2| + 1..];
  }

  /** With a `-` inside a platform name, two different listings can share an identifier. */
  lemma ListingIdCollision()
    ensures ListingId("a-b", map["show_id" := "c"]) == ListingId("a", map["show_id" := "b-c"])
  {
  }
}

/**
 * How the three stages fit together: a merged row that `enrich_record`
 * accepts is a record `normalise_records` accepts, and its listing carries the
 * tags the merge step gave it.
 */
module Pipeline {
  import opened Wrappers
  import opened Records
  import opened Merger
  import opened Enricher
  import opened Normaliser

  /** A record holding a listing_id and a None or a list under each list key is accepted. */
  lemma ListShapedIsNormalisable(out: Record)
    requires "listing_id" in out
    requires "directors" in out && (out["directors"] == Null || out["directors"].StrList?)
    requires "casts" in out && (out["casts"] == Null || out["casts"].StrList?)
    requires "producer_countries" in out && (out["producer_countries"] == Null || out["producer_countries"].StrList?)
    requires "categories" in out && (out["categories"] == Null || out["categories"].StrList?)
    ensures Normalisable(out)
  {
    forall key | key in ListKeys && key in out
      ensures out[key] == Null || out[key].StrList?
    {
      assert key == "directors" || key == "casts" || key == "producer_countries" || key == "categories";
    }
  }

  /** The merge step's tags are not among the keys `enrich_record` derives. */
  lemma TagsNotDerived()
    ensures "listing_id" !in DerivedKeys && "platform" !in DerivedKeys
  {
  }

  /** `enrich_record` output is `normalise_records` input when the row has a `listing_id`. */
  lemma EnrichedIsNormalisable(record: CsvRecord, out: Record)
    requires EnrichRecord(record) == Success(out)
    requires "listing_id" in record
    ensures Normalisable(out)
    ensures Get(out, "listing_id") == Str(record["listing_id"])
    ensures "platform" in record ==> Get(out, "platform") == Str(record["platform"])
  {
    EnrichedKeepsRawFields(record, out);
    TagsNotDerived();
    var e := DerivedValues(record, out);
    ListShapedIsNormalisable(out);
  }

  /**
   * An enriched, tagged row has a `listing_id`, list fields that are None or
   * lists, and the merge step's tags unless the CSV row had its own.
   */
  lemma EnrichedTaggedRow(platform: string, row: CsvRecord, out: Record)
    requires EnrichRecord(Tag(platform, row)) == Success(out)
    ensures Normalisable(out)
    ensures "listing_id" !in row ==> ListingRow(out)["listing_id"] == Str(ListingId(platform, row))
    ensures "platform" !in row ==> ListingRow(out)["platform"] == Str(platform)
  {
    EnrichedIsNormalisable(Tag(platform, row), out);
  }
}

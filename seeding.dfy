/** `initializeDatabase`: the fetched sale documents are normalised (an invalid
    `dateOfSale` becomes the current time, a falsy `image` becomes the placeholder
    URL, every other field is copied), and the store's contents are replaced. */
module Seeding {
  import opened Wrappers
  import opened Calendar
  import opened TransactionModel

  const DefaultImage: string := "https://default-image-url.com/default.jpg"

  /** JavaScript truthiness of a string field: present and not empty. For strings
      it coincides with `RequiredString`, the schema's `required` check. */
  predicate Truthy(s: Option<string>) {
    s.Some? && s.value != ""
  }

  /** The per-document step of the seed `map`; `now` is what `new Date()` reads. */
  function Normalize(d: Document, now: Instant): (r: Document)
    ensures IsValidDate(r.dateOfSale) && RequiredString(r.image)
    ensures IsValidDate(d.dateOfSale) ==> NewDate(r.dateOfSale) == NewDate(d.dateOfSale)
    ensures !IsValidDate(d.dateOfSale) ==> NewDate(r.dateOfSale) == Ms(now)
    ensures Truthy(d.image) ==> r.image == d.image
    ensures !Truthy(d.image) ==> r.image == Some(DefaultImage)
    ensures r.(dateOfSale := d.dateOfSale, image := d.image) == d
  {
    var date := NewDate(d.dateOfSale);
    d.(dateOfSale := Given(if date.Ms? then date else Ms(now)),
       image := if Truthy(d.image) then d.image else Some(DefaultImage))
  }

  /** The normalised document satisfies the `dateOfSale` and `image` rules and the
      pre-save hook, whatever the raw document held in those two fields. */
  lemma NormalizedDateAndImageValid(d: Document, now: Instant)
    ensures IsValidDate(Normalize(d, now).dateOfSale)
    ensures RequiredString(Normalize(d, now).image)
    ensures PreSave(Normalize(d, now)) == Proceed
  {
  }

  function NormalizeAll(docs: seq<Document>, now: Instant): (r: seq<Document>)
    ensures |r| == |docs|
    ensures forall i | 0 <= i < |docs| :: r[i] == Normalize(docs[i], now)
  {
    seq(|docs|, i requires 0 <= i < |docs| => Normalize(docs[i], now))
  }

  /** `insertMany` validation: every document is validated before anything is
      written, and one invalid document rejects the whole batch. */
  function ValidateAll(docs: seq<Document>): (r: Option<seq<Transaction>>)
    ensures r.Some? <==> forall i | 0 <= i < |docs| :: SatisfiesSchema(docs[i])
    ensures r.Some? ==> |r.value| == |docs|
    ensures r.Some? ==> forall i | 0 <= i < |docs| :: Validate(docs[i]) == Some(r.value[i])
    decreases |docs|
  {
    if docs == [] then Some([])
    else
      match (Validate(docs[0]), ValidateAll(docs[1..]))
      case (Some(t), Some(ts)) =>
        assert forall i | 1 <= i < |docs| :: docs[i] == docs[1..][i - 1];
        Some([t] + ts)
      case _ =>
        assert forall i | 0 <= i < |docs| - 1 :: docs[1..][i] == docs[i + 1];
        None
  }

  /** The stored record `t` is document `d` seeded at time `now`: the date is kept
      when valid and is `now` otherwise, a falsy image is the placeholder, and
      every other schema field is copied. */
  predicate SeededFrom(t: Transaction, d: Document, now: Instant) {
    && Some(t.title) == d.title
    && t.description == d.description
    && Some(t.price) == d.price
    && Some(t.category) == d.category
    && t.dateOfSale == (if IsValidDate(d.dateOfSale) then NewDate(d.dateOfSale).t else now)
    && Some(t.sold) == d.sold
    && t.image == (if Truthy(d.image) then d.image.value else DefaultImage)
  }

  /** After normalisation only the fields that seeding does not repair decide
      whether a document is accepted; an accepted one is seeded from the original. */
  lemma SeededRecord(d: Document, now: Instant)
    ensures Validate(Normalize(d, now)).Some? <==>
              RequiredString(d.title) && d.price.Some? && RequiredString(d.category) && d.sold.Some?
    ensures Validate(Normalize(d, now)).Some? ==> SeededFrom(Validate(Normalize(d, now)).value, d, now)
  {
  }

  datatype InitOutcome = Initialized | FetchFailed | InsertFailed {
    function Status(): int {
      if Initialized? then 200 else 500
    }
  }

  /** The transaction collection. */
  class TransactionStore {
    var records: seq<Transaction>

    constructor ()
      ensures records == []
    {
      records := [];
    }

    /** `fetched` is the feed as received (None when the request fails); `now` is
        the current time. The fetch comes first, so a failed fetch leaves the store
        alone; after that the store is cleared, and a batch that fails validation
        leaves it empty. */
    method InitializeDatabase(fetched: Option<seq<Document>>, now: Instant) returns (outcome: InitOutcome)
      modifies this
      ensures fetched.None? ==> outcome == FetchFailed && records == old(records)
      ensures fetched.Some? ==> outcome != FetchFailed
      ensures fetched.Some? ==>
        (outcome == Initialized <==>
           forall i | 0 <= i < |fetched.value| :: SatisfiesSchema(Normalize(fetched.value[i], now)))
      ensures outcome == InsertFailed ==> records == []
      ensures outcome == Initialized ==>
        && |records| == |fetched.value|
        && forall i | 0 <= i < |records| :: SeededFrom(records[i], fetched.value[i], now)
    {
      if fetched.None? {
        return FetchFailed;
      }
      var docs := fetched.value;
      records := [];
      var normalized := NormalizeAll(docs, now);
      var inserted := ValidateAll(normalized);
      if inserted.None? {
        return InsertFailed;
      }
      records := inserted.value;
      forall i | 0 <= i < |records|
        ensures SeededFrom(records[i], docs[i], now)
      {
        SeededRecord(docs[i], now);
      }
      return Initialized;
    }
  }
}

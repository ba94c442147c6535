/** The `Transaction` schema: the shape of a sale document as it arrives, the
    record the store keeps after the schema is applied, the required/optional
    rules, the `dateOfSale` validator and the pre-save date check. */
module TransactionModel {
  import opened Wrappers
  import opened Calendar

  /** The value of a `dateOfSale` field: missing, or a value that the JavaScript
      date parser reads as the time value `parsed` (NaN when it is not a date). */
  datatype DateInput = Missing | Given(parsed: TimeValue)

  /** A sale document before the schema is applied: every field may be missing.
      `id` stands for the fields that are not part of the schema. */
  datatype Document = Document(
    id: Option<int>,
    title: Option<string>,
    description: Option<string>,
    price: Option<real>,
    category: Option<string>,
    dateOfSale: DateInput,
    sold: Option<bool>,
    image: Option<string>)

  /** A stored sale record: every required field is present. */
  datatype Transaction = Transaction(
    title: string,
    description: Option<string>,
    price: real,
    category: string,
    dateOfSale: Instant,
    sold: bool,
    image: string)

  /** `new Date(value)`: the time value of a `Date` built from a field value. */
  function NewDate(d: DateInput): (r: TimeValue)
    ensures d.Missing? ==> r == NaN
    ensures r.Ms? ==> -MaxTimeValue <= r.t <= MaxTimeValue
  {
    match d
    case Missing => NaN
    case Given(v) => TimeClip(v)
  }

  /** The `dateOfSale` validator: the value parses to a valid date. */
  predicate IsValidDate(d: DateInput) {
    NewDate(d).Ms?
  }

  /** `required: true` on a String field: present and not empty. */
  predicate RequiredString(s: Option<string>) {
    s.Some? && s.value != ""
  }

  /** All schema rules hold: `title`, `price`, `category`, `dateOfSale`, `sold` and
      `image` are present (the strings non-empty) and `dateOfSale` is a valid date;
      `description` may be missing. */
  predicate SatisfiesSchema(d: Document) {
    RequiredString(d.title) && d.price.Some? && RequiredString(d.category)
    && IsValidDate(d.dateOfSale) && d.sold.Some? && RequiredString(d.image)
  }

  /** Applying the schema to a document: the stored record when every rule holds
      (fields outside the schema are dropped), None when validation fails. */
  function Validate(d: Document): (r: Option<Transaction>)
    ensures r.Some? <==> SatisfiesSchema(d)
    ensures r.Some? ==>
      && Some(r.value.title) == d.title
      && r.value.description == d.description
      && Some(r.value.price) == d.price
      && Some(r.value.category) == d.category
      && NewDate(d.dateOfSale) == Ms(r.value.dateOfSale)
      && Some(r.value.sold) == d.sold
      && Some(r.value.image) == d.image
  {
    if SatisfiesSchema(d) then
      Some(Transaction(d.title.value, d.description, d.price.value, d.category.value,
                       NewDate(d.dateOfSale).t, d.sold.value, d.image.value))
    else
      None
  }

  /** Re-read a stored record as a document. */
  function ToDocument(t: Transaction): Document {
    Document(None, Some(t.title), t.description, Some(t.price), Some(t.category),
             Given(Ms(t.dateOfSale)), Some(t.sold), Some(t.image))
  }

  /** A stored record satisfies the schema and validates back to itself. */
  lemma StoredRecordRoundTrip(t: Transaction)
    requires t.title != "" && t.category != "" && t.image != ""
    ensures Validate(ToDocument(t)) == Some(t)
  {
  }

  datatype SaveStep = Proceed | Abort(message: string)

  /** The pre-save hook: a present `dateOfSale` that is not a valid date stops the
      save with "Invalid date format for dateOfSale"; otherwise the save goes on.
      The hook only reads the document. */
  function PreSave(d: Document): (r: SaveStep)
    ensures r.Abort? <==> d.dateOfSale.Given? && !IsValidDate(d.dateOfSale)
    ensures r.Abort? ==> r.message == "Invalid date format for dateOfSale"
  {
    if d.dateOfSale.Given? && NewDate(d.dateOfSale).NaN? then
      Abort("Invalid date format for dateOfSale")
    else
      Proceed
  }

  /** A document that satisfies the schema also passes the pre-save hook. */
  lemma SchemaImpliesPreSave(d: Document)
    requires SatisfiesSchema(d)
    ensures PreSave(d) == Proceed
  {
  }
}

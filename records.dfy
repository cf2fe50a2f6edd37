/** Company records as the service passes them around: flat dictionaries from
    field names to JSON-like values.  A field that is absent is read as the
    empty string, as every `.get(key, '')` in the service does. */
module Records {

  datatype Option<+T> = None | Some(value: T)

  /** The values a record field (or a decoded JSON document) can hold. */
  datatype Value =
    | Str(s: string)
    | Num(x: real)
    | Bool(b: bool)
    | Null
    | List(items: seq<Value>)
    | Object(fields: map<string, Value>)

  type Record = map<string, Value>

  // Field names of a normalised company record.
  const CompanyNumber := "company_number"
  const CompanyName := "company_name"
  const CompanyStatus := "company_status"
  const CompanyType := "company_type"
  const DateOfCreation := "date_of_creation"
  const SicCodesField := "sic_codes"
  const SicDescriptionsField := "sic_descriptions"
  const AddressLine1 := "address_line_1"
  const AddressLine2 := "address_line_2"
  const Locality := "locality"
  const Region := "region"
  const PostalCode := "postal_code"
  const Country := "country"
  const FullAddress := "full_address"
  const SearchSource := "search_source"
  const PscNames := "psc_names"
  const LikelyChain := "likely_chain"
  const ShopType := "shop_type"
  const Channel := "channel"
  const AiConfidence := "ai_confidence"

  /** `record.get(key, '')` for a text field. */
  function Text(r: Record, key: string): string {
    if key in r && r[key].Str? then r[key].s else ""
  }

  /** Python truthiness of a value. */
  predicate Truthy(v: Value) {
    match v
    case Str(s) => s != ""
    case Num(x) => x != 0.0
    case Bool(b) => b
    case Null => false
    case List(xs) => xs != []
    case Object(m) => m != map[]
  }

  /** The company number of a record, the key of deduplication and merging. */
  function Number(r: Record): string {
    Text(r, CompanyNumber)
  }

  /** The set of company numbers that occur in a list of records. */
  function Numbers(s: seq<Record>): set<string> {
    set i | 0 <= i < |s| :: Number(s[i])
  }
}

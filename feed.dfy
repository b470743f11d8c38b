/** The records that flow from the threat feed through the server to the list view. */
module Feed {
  import opened Wrappers

  /** A string property of a JSON record: absent (undefined or null) or a string. */
  type Field = Option<string>

  /** JavaScript truthiness of a string property: present and not the empty string. */
  predicate Truthy(f: Field)
  {
    f.Some? && f.value != ""
  }

  /** The expression `f || fallback`. */
  function OrElse(f: Field, fallback: string): string
  {
    if Truthy(f) then f.value else fallback
  }

  /** The placeholder shown for a missing display field. */
  const Sentinel: string := "-"

  /** One observation as the feed reports it (the properties the server reads). */
  datatype FeedRecord = FeedRecord(
    ioc: Field,
    iocType: Field,
    malware: Field,
    malwarePrintable: Field,
    threatTypeDesc: Field,
    firstSeen: Field)

  /** The shape the server sends to the list view; every property is present. */
  datatype DisplayRecord = DisplayRecord(
    ioc: string,
    iocType: string,
    malware: string,
    threatTypeDesc: string,
    firstSeen: string)

  /** `new Date(text)`: milliseconds since the epoch, or None for an invalid date. */
  type DateParse = string -> Option<int>
}

/** What the host supplies about text: NFC and lower-casing, localeCompare, and the default string sort order. */
module Locales {
  import opened Text
  import opened Orders

  datatype Locale = Locale(text: TextOps, collate: (string, string) -> bool, ordinal: (string, string) -> bool)

  ghost predicate Lawful(l: Locale) {
    TotalOrder(l.collate) && TotalOrder(l.ordinal)
  }
}

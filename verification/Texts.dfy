/** Text joining, shared by the CSV export and the folder breadcrumbs. */
module Texts {
  /** `separator.join(parts)` */
  function Join(parts: seq<string>, separator: string): string {
    if parts == [] then ""
    else if |parts| == 1 then parts[0]
    else parts[0] + separator + Join(parts[1..], separator)
  }
}

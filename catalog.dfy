/** The static track catalog: a JSON array of songs, each with an id, artist,
    title, description, cover image name and link. An id is a JSON number
    (an integer here), a string, a boolean, `null`, or absent. */
module Catalog {
  import opened Wrappers
  import opened JsNumber

  datatype JsonId = NumberId(n: int) | StringId(s: string) | BoolId(b: bool) | NullId | NoId

  datatype Song = Song(id: JsonId, artist: string, title: string, description: string,
                       coverimage: string, link: string)

  /** `String(id)`. */
  function IdString(id: JsonId): string {
    match id
    case NumberId(n) => IntToString(n)
    case StringId(s) => s
    case BoolId(b) => if b then "true" else "false"
    case NullId => "null"
    case NoId => "undefined"
  }

  /** `String(n)` of a numeric id a double holds exactly reads back as the
      same number, so a numeric id and its decimal text select the same
      songs. */
  lemma NumberIdText(n: int)
    requires IsSafeInteger(n)
    ensures IdString(NumberId(n)) == IdString(StringId(IntToString(n)))
    ensures NumberOf(IdString(NumberId(n))) == Some(n)
  {
    NumberRoundTrip(Some(n));
  }
}

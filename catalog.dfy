/** The values the catalog is made of. */
module Catalog {

  /** One catalog row: `{ title, info }`. */
  datatype Entry = Entry(title: string, info: string)

  /** An entry kept by a non-empty query, with the score and the upper-cased
      type of its best field match (`matchScore`, `matchType`). */
  datatype Hit = Hit(entry: Entry, matchScore: nat, matchType: string)

  /** An element of `filteredData`: a plain copy of an entry (empty query) or
      an annotated one. */
  datatype Shown = Plain(entry: Entry) | Ranked(hit: Hit)

  function AsPlain(entries: seq<Entry>): (r: seq<Shown>)
    ensures |r| == |entries|
    ensures forall i :: 0 <= i < |entries| ==> r[i] == Plain(entries[i])
  {
    seq(|entries|, i requires 0 <= i < |entries| => Plain(entries[i]))
  }

  function AsRanked(hits: seq<Hit>): (r: seq<Shown>)
    ensures |r| == |hits|
    ensures forall i :: 0 <= i < |hits| ==> r[i] == Ranked(hits[i])
  {
    seq(|hits|, i requires 0 <= i < |hits| => Ranked(hits[i]))
  }
}

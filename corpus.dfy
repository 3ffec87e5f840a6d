/** The document records the bibliography reads, and `doc_sort_key`. */
module Corpus {
  import opened Js
  import opened Strings

  /** One row of the corpus metadata. `stamp` is the date as `+date` gives it
      (milliseconds since the epoch) and `year` is `date.getFullYear()`. */
  datatype Doc = Doc(
    authors: seq<string>,
    stamp: int,
    year: int,
    title: string,
    journal: string,
    volume: string,
    issue: string,
    pages: string,
    doi: string)

  /** The year of a date never decreases as its timestamp grows, as it is for
      `getFullYear` of a valid date. */
  predicate YearFollowsDate(corpus: seq<Doc>)
  {
    forall i, j :: 0 <= i < |corpus| && 0 <= j < |corpus| && corpus[i].stamp <= corpus[j].stamp ==>
      corpus[i].year <= corpus[j].year
  }

  /** `doc_sort_key`: "[Anon]" for a document without authors; otherwise the
      upper-cased first character of the last space-separated token of the
      first author's name. Reading `[0]` of an empty token gives `undefined`,
      and calling `toUpperCase` on it throws. */
  function SortKey(authors: seq<string>): (r: Outcome<string>)
    ensures authors == [] <==> r == Returns("[Anon]")
    ensures authors != [] ==> (r.Throws? <==> authors[0] == "" || Last(authors[0]) == ' ')
    ensures authors != [] && r.Returns? ==>
      r.value == [UpperAscii(authors[0][LastTokenStart(authors[0], ' ')])]
  {
    if |authors| > 0 then
      var names := Split(authors[0], ' ');
      var last := names[|names| - 1];
      LastPiece(authors[0], ' ');
      if |last| == 0 then Throws else Returns([UpperAscii(last[0])])
    else
      Returns("[Anon]")
  }
}

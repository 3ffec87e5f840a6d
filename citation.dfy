/** `cite_doc`: the citation line of a document, as the topic, document and
    bibliography views show it. */
module Citation {
  import opened Strings
  import opened Corpus

  /** The lead author surname first: `lead.pop() + ", " + lead.join(" ")`
      over the space-separated words of the name. */
  function InvertName(name: string): string
  {
    var lead := Split(name, ' ');
    Last(lead) + ", " + Join(lead[..|lead| - 1], " ")
  }

  /** The author part: "[Anon]" without authors; otherwise the lead author
      inverted, the middle authors after ", " when there are three or more,
      and the last one after ", and " when there are two or more. */
  function Byline(authors: seq<string>): string
  {
    if |authors| == 0 then "[Anon]"
    else
      InvertName(authors[0])
      + (if |authors| > 2 then ", " + Join(authors[1..|authors| - 1], ", ") else "")
      + (if |authors| > 1 then ", and " + Last(authors) else "")
  }

  /** The citation before its clean-up: byline, quoted title, journal in
      `<em>`, volume and issue, the formatted date and the page range. */
  function RawCitation(doc: Doc, dateFormat: int -> string): string
  {
    Byline(doc.authors) + ". "
      + "\"" + doc.title + ".\""
      + " <em>" + doc.journal + "</em> "
      + doc.volume + ", no. " + doc.issue
      + " (" + dateFormat(doc.stamp) + "): "
      + doc.pages + "."
  }

  /** `replace(/_/g, ",")` then `replace(/\t/g, "")`. */
  function Clean(s: string): (r: string)
    ensures '_' !in r && '\t' !in r
  {
    var t := ReplaceChar(s, '_', ',');
    assert '_' !in t by {
      forall k | 0 <= k < |t| ensures t[k] != '_' {
      }
    }
    var r := RemoveChar(t, '\t');
    RemoveCharCounts(t, '\t');
    assert multiset(r)['_'] == multiset(t)['_'] == 0;
    r
  }

  /** The citation `cite_doc(m, d)` returns, the date written by `dateFormat`
      (`VIS.cite_date_format`). */
  function CitationText(doc: Doc, dateFormat: int -> string): (r: string)
    ensures '_' !in r && '\t' !in r
  {
    Clean(RawCitation(doc, dateFormat))
  }

  /** `cite_doc`, step by step as the source accumulates `result`. */
  method CiteDoc(doc: Doc, dateFormat: int -> string) returns (result: string)
    ensures result == CitationText(doc, dateFormat)
  {
    var authors := doc.authors;
    if |authors| > 0 {
      var lead := Split(authors[0], ' ');
      result := Last(lead) + ", ";
      lead := lead[..|lead| - 1];
      result := result + Join(lead, " ");
      if |authors| > 1 {
        if |authors| > 2 {
          result := result + ", ";
          result := result + Join(authors[1..|authors| - 1], ", ");
        }
        result := result + ", and " + authors[|authors| - 1];
      }
    } else {
      result := "[Anon]";
    }
    assert result == Byline(authors);

    result := result + ". ";
    result := result + "\"" + doc.title + ".\"";
    result := result + " <em>" + doc.journal + "</em> ";
    result := result + doc.volume + ", no. " + doc.issue;
    result := result + " (" + dateFormat(doc.stamp) + "): ";
    result := result + doc.pages + ".";

    result := ReplaceChar(result, '_', ',');
    result := RemoveChar(result, '\t');
  }

  /** The inverted name is the last word, ", ", then everything before the
      space that precedes it; a name of one word gets a bare ", " after it. */
  lemma {:induction false} InvertNameMeaning(name: string)
    ensures var k := LastTokenStart(name, ' ');
      InvertName(name) == name[k..] + ", " + (if k == 0 then "" else name[..k - 1])
  {
    var lead := Split(name, ' ');
    var k := LastTokenStart(name, ' ');
    var front := lead[..|lead| - 1];
    LastPiece(name, ' ');
    JoinSplit(name, ' ');
    if |lead| == 1 {
      assert name == Last(lead);
      assert name[k..] == name;
    } else {
      assert lead == front + [Last(lead)];
      JoinSnoc(front, Last(lead), " ");
      var j := Join(front, " ");
      assert name == j + " " + name[k..];
      assert |j| == k - 1;
      assert name[..k - 1] == j;
    }
  }

  /** A one-word name, such as an institution, becomes the word and ", ". */
  lemma {:induction false} InvertSingleWord(name: string)
    requires ' ' !in name
    ensures InvertName(name) == name + ", "
  {
    SplitNoSeparator(name, ' ');
  }

  /** The four shapes of the byline. */
  lemma {:induction false} BylineCases(authors: seq<string>)
    ensures |authors| == 0 ==> Byline(authors) == "[Anon]"
    ensures |authors| == 1 ==> Byline(authors) == InvertName(authors[0])
    ensures |authors| == 2 ==> Byline(authors) == InvertName(authors[0]) + ", and " + authors[1]
    ensures |authors| >= 3 ==>
      Byline(authors) == InvertName(authors[0]) + ", " + Join(authors[1..|authors| - 1], ", ") + ", and " + authors[|authors| - 1]
  {
  }

  /** The clean-up leaves a citation without underscores or tabs as it is,
      so applying it twice changes nothing more. */
  lemma {:induction false} CleanIdentity(s: string)
    requires '_' !in s && '\t' !in s
    ensures Clean(s) == s
  {
    ReplaceAbsent(s, '_', ',');
    RemoveAbsent(s, '\t');
  }

  lemma {:induction false} CleanIdempotent(s: string)
    ensures Clean(Clean(s)) == Clean(s)
  {
    CleanIdentity(Clean(s));
  }

  lemma {:induction false} ReplaceAbsent(s: string, x: char, y: char)
    requires x !in s
    ensures ReplaceChar(s, x, y) == s
  {
    var r := ReplaceChar(s, x, y);
    assert forall k :: 0 <= k < |s| ==> r[k] == s[k];
  }

  lemma {:induction false} RemoveAbsent(s: string, x: char)
    requires x !in s
    ensures RemoveChar(s, x) == s
  {
    if s != [] {
      RemoveAbsent(s[1..], x);
    }
  }
}

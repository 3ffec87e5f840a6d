/** The dashboard's hash routes: the links and labels it writes, and
    `view_refresh`, which reads `window.location.hash` back into a view. */
module Routes {
  import opened Js
  import opened Strings
  import opened Numerals

  /** `VIS.uri_proxy` as the dashboard ships it. */
  const DefaultProxy: string := ".proxy.libraries.rutgers.edu"

  /** `topic_link(t)`: the hash of topic t, numbered from 1 for the reader. */
  function TopicLink(t: nat): string
  {
    "#/topic/" + NatToString(t + 1)
  }

  /** `"#/doc/" + d`: the hash the topic and bibliography views link document d to. */
  function DocLink(d: nat): string
  {
    "#/doc/" + NatToString(d)
  }

  /** `topic_label(m, t, n)`: the 1-based topic number, a space, and the top
      words `m.topic_words(t, n)` joined by spaces. */
  function TopicLabel(t: nat, words: seq<string>): string
  {
    NatToString(t + 1) + " " + Join(words, " ")
  }

  /** `doc_uri(m, d)` for a document whose DOI is `doi`, through `proxy`
      (`VIS.uri_proxy`). */
  function DocUri(doi: string, proxy: string): string
  {
    "http://dx.doi.org" + proxy + "/" + doi
  }

  /** With the shipped `VIS.uri_proxy`, a document's link goes through the
      Rutgers library proxy of dx.doi.org. */
  lemma ShippedDocUri(doi: string)
    ensures DocUri(doi, DefaultProxy) == "http://dx.doi.org.proxy.libraries.rutgers.edu/" + doi
    ensures DoiOf(DocUri(doi, DefaultProxy), DefaultProxy) == Some(doi)
  {
    DoiRoundTrip(doi, DefaultProxy);
  }

  /** The DOI a link through `proxy` resolves, when the link has that form. */
  function DoiOf(uri: string, proxy: string): Option<string>
  {
    var prefix := "http://dx.doi.org" + proxy + "/";
    if |prefix| <= |uri| && uri[..|prefix|] == prefix then Some(uri[|prefix|..]) else None
  }

  /** The view `view_refresh` dispatches to, with the parameter as that view
      receives it. `NoView` is the `default` branch. */
  datatype View =
    | ModelView
    | AboutView
    | BibView
    | TopicView(topic: Num)
    | WordView(word: Option<string>)
    | DocView(doc: Num)
    | NoView(name: string)

  /** `v.split("/")[i]`, which is `undefined` past the end. */
  function Segment(v: string, i: nat): Option<string>
  {
    var parts := Split(v, '/');
    if i < |parts| then Some(parts[i]) else None
  }

  /** The `switch` of `view_refresh` on segment 1 of the hash; the topic
      parameter becomes `+param - 1` and the document parameter `+param`. */
  function ParseHash(v: string): View
  {
    var param := Segment(v, 2);
    match Segment(v, 1)
    case None => ModelView
    case Some(name) =>
      if name == "model" then ModelView
      else if name == "about" then AboutView
      else if name == "bib" then BibView
      else if name == "topic" then TopicView(Minus(ToNumber(param), 1))
      else if name == "word" then WordView(param)
      else if name == "doc" then DocView(ToNumber(param))
      else NoView(name)
  }

  /** The `success` of a dispatch: every view function reports true except
      `word_view` without a word, and the `default` branch is false. */
  predicate Succeeds(view: View)
  {
    !view.NoView? && view != WordView(None)
  }

  /** `view_parsed[1]` after the switch: segment 1, or "model" when the hash
      has none. It names the view's `div` and the highlighted `li#nav_` item. */
  function NavName(v: string): string
  {
    match Segment(v, 1)
    case None => "model"
    case Some(name) => name
  }

  /** The part of `VIS` that `view_refresh` changes: the view on screen
      (`VIS.cur_view`, by the name in its `div#<name>_view`) and the
      navigation item marked active. */
  class ViewState {
    var curView: Option<string>
    var activeNav: Option<string>

    /** Before the first refresh no view is current and no item is active. */
    constructor ()
      ensures curView == None && activeNav == None
    {
      curView := None;
      activeNav := None;
    }

    /** `view_refresh(m, v)`: dispatch on the hash, then show the dispatched
        view when it succeeded, fall back on the model view when it failed
        and nothing was shown yet, and keep the current view otherwise. */
    method Refresh(v: string) returns (view: View, success: bool)
      modifies this
      ensures view == ParseHash(v) && success == Succeeds(view)
      ensures curView == if success then Some(NavName(v))
                         else if old(curView) == None then Some("model")
                         else old(curView)
      ensures activeNav == Some(NavName(v))
    {
      var parsed := Split(v, '/');
      var param: Option<string> := if |parsed| > 2 then Some(parsed[2]) else None;
      var name: string;
      if |parsed| < 2 {
        name := "model";
        view, success := ModelView, true;
      } else {
        name := parsed[1];
        if name == "model" {
          view, success := ModelView, true;
        } else if name == "about" {
          view, success := AboutView, true;
        } else if name == "bib" {
          view, success := BibView, true;
        } else if name == "topic" {
          view, success := TopicView(Minus(ToNumber(param), 1)), true;
        } else if name == "word" {
          view, success := WordView(param), param != None;
        } else if name == "doc" {
          view, success := DocView(ToNumber(param)), true;
        } else {
          view, success := NoView(name), false;
        }
      }

      if success {
        curView := Some(name);
      } else if curView == None {
        curView := Some("model");
      }
      activeNav := Some(name);
    }
  }

  /** Digits never contain the route separator. */
  lemma DigitsHaveNoSlash(s: string)
    requires AllDigits(s)
    ensures '/' !in s
  {
    assert forall k :: 0 <= k < |s| ==> s[k] != '/';
  }

  /** The segments of `"#/" + name + "/" + param` for a parameter without a slash. */
  lemma {:induction false} RouteSegments(name: string, param: string)
    requires '/' !in name && '/' !in param
    ensures Split("#/" + name + "/" + param, '/') == ["#", name, param]
  {
    assert "#/" + name + "/" + param == "#" + ['/'] + (name + ['/'] + param);
    SplitAfterPiece("#", '/', name + ['/'] + param);
    SplitAfterPiece(name, '/', param);
    SplitNoSeparator(param, '/');
  }

  /** `topic_link(t)` leads `view_refresh` back to topic t. */
  lemma {:induction false} TopicRoundTrip(t: nat)
    ensures ParseHash(TopicLink(t)) == TopicView(Finite(t))
    ensures Succeeds(ParseHash(TopicLink(t))) && NavName(TopicLink(t)) == "topic"
  {
    var digits := NatToString(t + 1);
    DigitsHaveNoSlash(digits);
    assert TopicLink(t) == "#/" + "topic" + "/" + digits;
    RouteSegments("topic", digits);
    ToNumberOfString(t + 1);
  }

  /** `"#/doc/" + d` leads `view_refresh` back to document d. */
  lemma {:induction false} DocRoundTrip(d: nat)
    ensures ParseHash(DocLink(d)) == DocView(Finite(d))
    ensures Succeeds(ParseHash(DocLink(d))) && NavName(DocLink(d)) == "doc"
  {
    var digits := NatToString(d);
    DigitsHaveNoSlash(digits);
    assert DocLink(d) == "#/" + "doc" + "/" + digits;
    RouteSegments("doc", digits);
    ToNumberOfString(d);
  }

  /** A hash without a second segment (such as the empty hash) selects the
      model view. */
  lemma {:induction false} NoSegmentIsModel(v: string)
    requires '/' !in v
    ensures ParseHash(v) == ModelView && Succeeds(ParseHash(v)) && NavName(v) == "model"
  {
    SplitNoSeparator(v, '/');
  }

  /** A view name outside the six the switch knows fails, whatever follows it. */
  lemma {:induction false} UnknownNameFails(v: string)
    requires Segment(v, 1).Some?
    requires Segment(v, 1).value !in ["model", "about", "bib", "topic", "word", "doc"]
    ensures ParseHash(v) == NoView(Segment(v, 1).value) && !Succeeds(ParseHash(v))
  {
  }

  /** A dispatch fails exactly on an unknown name or a word route without a word. */
  lemma {:induction false} SuccessCases(v: string)
    ensures !Succeeds(ParseHash(v)) <==>
      Segment(v, 1).Some? &&
      (Segment(v, 1).value !in ["model", "about", "bib", "topic", "word", "doc"] ||
       (Segment(v, 1).value == "word" && Segment(v, 2).None?))
  {
  }

  /** A hash ending in "/" after its first segment, such as "#/", names the
      empty view, which does not exist: it fails. */
  lemma {:induction false} EmptyNameFails(head: string)
    requires '/' !in head
    ensures ParseHash(head + "/") == NoView("") && !Succeeds(ParseHash(head + "/"))
  {
    assert head + "/" == head + ['/'] + "";
    SplitAfterPiece(head, '/', "");
    SplitNoSeparator("", '/');
  }

  /** A word route without a word, such as "#/word", fails. */
  lemma {:induction false} BareWordFails(head: string)
    requires '/' !in head
    ensures ParseHash(head + "/word") == WordView(None) && !Succeeds(ParseHash(head + "/word"))
  {
    assert head + "/word" == head + ['/'] + "word";
    SplitAfterPiece(head, '/', "word");
    SplitNoSeparator("word", '/');
  }

  /** The number that leads a topic's label is the parameter of its link. */
  lemma {:induction false} LabelMatchesLink(t: nat, words: seq<string>)
    ensures Segment(TopicLink(t), 2) == Some(Split(TopicLabel(t, words), ' ')[0])
  {
    var digits := NatToString(t + 1);
    DigitsHaveNoSlash(digits);
    assert TopicLink(t) == "#/" + "topic" + "/" + digits;
    RouteSegments("topic", digits);
    assert ' ' !in digits by {
      assert forall k :: 0 <= k < |digits| ==> digits[k] != ' ';
    }
    assert TopicLabel(t, words) == digits + [' '] + Join(words, " ");
    SplitAfterPiece(digits, ' ', Join(words, " "));
  }

  /** The DOI link gives back its DOI, so distinct DOIs get distinct links. */
  lemma {:induction false} DoiRoundTrip(doi: string, proxy: string)
    ensures DoiOf(DocUri(doi, proxy), proxy) == Some(doi)
  {
    var prefix := "http://dx.doi.org" + proxy + "/";
    assert DocUri(doi, proxy) == prefix + doi;
    assert (prefix + doi)[..|prefix|] == prefix;
    assert (prefix + doi)[|prefix|..] == doi;
  }

  lemma {:induction false} DocUriInjective(a: string, b: string, proxy: string)
    ensures DocUri(a, proxy) == DocUri(b, proxy) <==> a == b
  {
    DoiRoundTrip(a, proxy);
    DoiRoundTrip(b, proxy);
  }
}

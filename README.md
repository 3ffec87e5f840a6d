# dfr-browser core, modelled in Dafny

dfr-browser is a browser dashboard for exploring a topic model of a corpus of journal
articles. Most of `index.js` is d3 view code. This project models the part of it that
is plain sequential logic:

- **The bibliography ordering.** `doc_sort_key` and `bib_sort` order every document
  index of the corpus by a major comparator (decade, year or author initial). They cut
  the sorted indices into runs, one per heading, and sort each run by a minor
  comparator (date or author initial). This is modules `Corpus`, `Sorting` and
  `Bibliography`.
- **The citation line.** `cite_doc` writes the citation shown for a document: the
  byline with the lead author inverted, the title, journal, volume, issue, date and
  pages, then a clean-up of underscores and tabs. This is module `Citation`.
- **The hash routes.** `topic_link`, `topic_label`, `doc_uri` and the `"#/doc/" + d`
  hrefs build the links. `view_refresh` splits `window.location.hash` on `/` and
  dispatches on its second segment, and records which view is current in
  `VIS.cur_view`. This is module `Routes`, with the class `ViewState` standing for
  the part of `VIS` that `view_refresh` updates.

The supporting modules model the JavaScript primitives these functions use:

- `Js`: `undefined`, a thrown TypeError, and NaN.
- `Strings`: `split`, `join`, `pop`, global `replace` of one character, and ASCII
  `toUpperCase`.
- `Numerals`: `String(n)` and unary `+`.
- `Order`: the order `d3.ascending` uses on numbers and on strings.

The model object `m` is not part of this model. Its `m.meta(i)` for `i` below
`m.n_docs()` is a sequence of `Doc` records, and `m.topic_words(t, n)` is a
parameter `words`.

`bib_sort` is a method that updates local state as the source does. It sorts the
indices, scans them while pushing headings and boundaries, shifts and pushes the
partition, then slices and sorts each run in a loop. Its postcondition states the
properties of the result:

- every index appears exactly once;
- for a non-empty corpus, one non-empty run per heading;
- the quirk of an empty corpus, which gets no heading and one empty run;
- every member of run k falls under heading k;
- levels strictly ascend from run to run, so no heading repeats;
- every run is in minor order;
- under the alphabetical minor order, a document without a sort key is alone in its run, so it is never compared.

`cite_doc` is a method that accumulates its result step by step. It is proved equal to
a functional definition, whose byline shapes and clean-up are proved as lemmas.
`view_refresh` is a method of `ViewState`. It is proved to dispatch as `ParseHash`
says and to leave `curView` as the source does. The links built by `topic_link` and
`"#/doc/" + d` are proved to parse back to the index they were built from.

## Model

| member | source | states |
|---|---|---|
| Corpus.SortKey | index.js:64-74 | "[Anon]" exactly when there are no authors. Otherwise the call throws exactly when the first author's name is empty or ends in a space (the last token is empty). Otherwise it is the one-character string of the upper-cased first character of the last space-separated token of the first author. |
| Bibliography.UnknownMajorIsAlpha | index.js:87-115 | Any major name other than "decade" and "year" selects the same strategy as "alpha". The only other effect is one log line for a name that is not "alpha". |
| Bibliography.UnknownMinorIsAlpha | index.js:118-130 | Any minor name other than "date" selects the same strategy as "alpha". The only other effect is one log line for a name that is not "alpha". |
| Bibliography.RangeOnce | index.js:81 | `d3.range(n)` has length n and holds every index below n exactly once. |
| Bibliography.SplitMatchesLevel | index.js:87-115 | Two documents get the same heading (decade string, year number or initial) exactly when they have the same decade, year or sort key. The decade case rests on `toString` being injective. |
| Bibliography.LevelMonotone | index.js:87-115 | A document that the major comparator orders no later has a level (decade, year or sort key) no greater, given that years grow with dates. |
| Bibliography.DivideMonotone | index.js:89-90 | `Math.floor(year / 10)` does not decrease as the year grows. |
| Bibliography.GroupsAscend | index.js:87-140 | In the major-sorted scan, every document of an earlier group has a strictly lower level than every document of a later group. |
| Bibliography.FlattenSnoc | index.js:144-147 | Concatenating the runs after pushing one more run appends that run. |
| Bibliography.MemberPosition | index.js:144-147 | Every member of a run sliced from `docs[lo..hi]` sits at some position between lo and hi of the sorted documents. |
| Bibliography.RunsUnderHeadings | index.js:132-147 | Every member of run k has heading `headings[k]`. |
| Bibliography.MemberUnderHeading | index.js:132-147 | One member of run k has heading `headings[k]`. |
| Bibliography.InGroup | index.js:132-140 | Every position of group k of the scan has heading `headings[k]`. |
| Bibliography.RunsAscend | index.js:87-147 | Every member of an earlier run has a strictly lower level than every member of a later run. |
| Bibliography.HeadingsDistinct | index.js:132-140 | No heading is pushed twice, not only not twice in a row. |
| Bibliography.GroupedGrow | index.js:134-135 | A document whose key equals `cur_major` extends the current group. |
| Bibliography.GroupedOpen | index.js:134-139 | A document whose key differs from `cur_major` opens a new group at its position, under its own heading. |
| Bibliography.ScanHeadings | index.js:133-140 | The scan pushes one boundary per heading. The boundaries start at 0, strictly increase and stay below the length. Each group's documents all have their group's heading, and neighbouring headings differ. |
| Bibliography.PrefixSplit | index.js:144-147 | A prefix of the sorted documents is the shorter prefix followed by the slice between the two boundaries. |
| Bibliography.Bounds | index.js:141-142 | After `shift()` and `push(n)`, the boundaries are the group starts without the leading 0, then n. An empty partition becomes `[n]`. |
| Bibliography.ShiftedBounds | index.js:141-147 | For a non-empty corpus, the shifted boundaries can cut the documents, and run k spans exactly group k. |
| Bibliography.BoundsCuttable | index.js:141-147 | The shifted boundaries ascend and stay within the documents, so every slice is well formed. |
| Bibliography.ExtendRuns | index.js:144-147 | Pushing the next sorted slice keeps the runs a permutation of the documents up to the slice's end. Each run remains its slice in minor order. |
| Bibliography.CutRuns | index.js:141-147 | One run per boundary after shift and push. The runs together are a permutation of the sorted documents. Run k is the slice between boundaries k-1 and k, sorted by the minor comparator. |
| Bibliography.SliceRuns | index.js:144-147 | The slicing loop: run k is `docs.slice(last, partition[k])` sorted by the minor comparator, and together the runs are a permutation of the documents. |
| Bibliography.RunsAreGroups | index.js:132-147 | For a non-empty corpus, the runs are the scan's groups, one each, none of them empty, each in minor order. |
| Bibliography.MajorOrder | index.js:81-132 | `d3.range(n).sort(major_sort)` is a permutation of every index below n, in ascending order of the major comparator. |
| Bibliography.CutOrdering | index.js:132-147 | For a non-empty corpus, there is one non-empty run per heading. Every member is under its run's heading. Levels ascend from run to run. Headings are distinct. Runs are in minor order. |
| Bibliography.RunsCoverRange | index.js:141-147 | Runs that together are a permutation of `d3.range(n)` hold every index below n exactly once. |
| Bibliography.EmptyOrdering | index.js:141-147 | An empty corpus yields exactly one empty run, which meets every property of an ordering. |
| Bibliography.BibSort | index.js:76-150 | For every corpus on which `bib_sort` returns rather than throws: the log lines of unknown names. An empty corpus gives no heading and one empty run. A non-empty corpus gives as many runs as headings, none empty. Every document index appears exactly once across the runs. Every member is under its run's heading. Levels strictly ascend from run to run. Headings are distinct. Every run is sorted by the minor comparator. Under the alphabetical minor comparator, a document without a sort key is the only member of its run, so its key is never compared. |
| Bibliography.FlattenContains | index.js:144-147 | Each run's members occur in the concatenation of the runs at least as often as in the run. |
| Bibliography.CountSame | index.js:144-147 | A run made only of copies of one index holds it as often as the run is long. |
| Bibliography.KeylessAlone | index.js:118-147 | In runs that hold every document once under its heading, a document without a sort key that shares its heading with no other document is the only member of its run. |
| Bibliography.SingleDocumentAccepted | index.js:96-130 | A corpus of one document, with or without a sort key, meets the preconditions under a date major and the alphabetical minor, since `major_split` reads only the date and a run of one is sorted without a comparison. |
| Sorting.PrependSorted | index.js:132 | An index ranked no higher than every element of a sorted sequence can go in front of it. |
| Sorting.InsertFront | index.js:132 | Inserting in front of a head that ranks no lower keeps the sequence sorted, and adds exactly that index. |
| Sorting.InsertBehind | index.js:132 | Keeping a head that ranks lower in front of the insertion into the tail keeps the sequence sorted, and adds exactly that index. |
| Sorting.Insert | index.js:132 | Inserting an index into a sorted sequence adds exactly that index and leaves the sequence sorted. |
| Sorting.SortBy | index.js:132 | `array.sort(cmp)` returns a permutation of its input in ascending order of the comparator. |
| Order.LexLeTotal | index.js:113 | The string order of `d3.ascending` is total. |
| Order.LexLeAntisymmetric | index.js:113 | The string order of `d3.ascending` is antisymmetric. |
| Order.LexLeTransitive | index.js:113 | The string order of `d3.ascending` is transitive. |
| Order.KeyLeTotal | index.js:92-130 | The comparator order on timestamps and keys is total. |
| Order.KeyLeAntisymmetric | index.js:92-130 | The comparator order on timestamps and keys is antisymmetric. |
| Order.KeyLeTransitive | index.js:92-130 | The comparator order on timestamps and keys is transitive. |
| Citation.Clean | index.js:201-202 | After replacing every `_` by `,` and removing every tab, the result holds neither character. |
| Citation.CitationText | index.js:170-205 | The citation `cite_doc` returns never contains an underscore or a tab. |
| Citation.CiteDoc | index.js:170-205 | Accumulating `result` step by step gives exactly the byline, the quoted title, the journal in `<em>`, volume, issue, formatted date and pages, cleaned. |
| Citation.InvertNameMeaning | index.js:176-178 | The inverted lead author is the last space-separated word, ", ", then everything before the space that precedes it (nothing for a one-word name). |
| Citation.InvertSingleWord | index.js:176-178 | A lead author without a space becomes the name followed by ", ". |
| Citation.BylineCases | index.js:175-191 | No authors give "[Anon]". One author gives the inverted name. Two give the inverted name, ", and " and the second. Three or more put the middle authors, joined by ", ", after ", " and before ", and " and the last. |
| Citation.CleanIdentity | index.js:201-202 | The clean-up leaves a string without underscores or tabs unchanged. |
| Citation.CleanIdempotent | index.js:201-202 | Cleaning a second time changes nothing. |
| Citation.ReplaceAbsent | index.js:201 | Replacing a character that does not occur leaves the string unchanged. |
| Citation.RemoveAbsent | index.js:202 | Removing a character that does not occur leaves the string unchanged. |
| Strings.Split | index.js:658 | `split` gives at least one piece, and no piece contains the separator. |
| Strings.JoinSplit | index.js:176-178 | Joining the pieces of a split with the separator gives back the string. |
| Strings.SplitNoSeparator | index.js:658 | A string without the separator splits into itself alone. |
| Strings.SplitAfterPiece | index.js:658 | A leading piece without the separator splits off first. |
| Strings.SplitJoin | index.js:176-178 | Splitting pieces joined by a separator none of them contains gives back the pieces. |
| Strings.JoinSnoc | index.js:177 | Joining one more piece appends the separator and that piece. |
| Strings.LastTokenStart | index.js:69-70 | The position after the last separator: no separator follows it, and it is 0 or preceded by the separator. |
| Strings.LastTokenStartUnique | index.js:69-70 | That position is the only one with those two properties. |
| Strings.LastPiece | index.js:69-70 | The last piece of a split, what `names[names.length - 1]` and `lead.pop()` read, is the suffix after the last separator. |
| Strings.ReplaceChar | index.js:201 | `replace(/x/g, y)` keeps the length and swaps every x for y, leaving every other character. |
| Strings.RemoveChar | index.js:202 | `replace(/x/g, "")` leaves no x. |
| Strings.RemoveCharCounts | index.js:202 | Every character other than x is kept as often as it occurs. |
| Strings.RemoveCharConcat | index.js:202 | Removing from a concatenation removes from each part in turn, so the kept characters stay in their order. |
| Strings.RemoveCharCons | index.js:202 | Removing from a string with a leading character drops that character if it is x and keeps it otherwise, then removes from the rest. |
| Strings.RemoveCharSingle | index.js:202 | A single character other than x is kept, and x itself is dropped. |
| Numerals.DigitChar | index.js:159 | The digit character of d is a digit whose value is d. |
| Numerals.NatToString | index.js:159 | `String(n)` is non-empty and made of decimal digits. It starts with "0" only when n is 0, so it has no leading zero. |
| Numerals.NatToStringRoundTrip | index.js:167 | Reading the digits of `String(n)` back gives n. |
| Numerals.SignFirst | index.js:89 | `toString` of an integer starts with "-" exactly when it is negative. |
| Numerals.NegativeDigits | index.js:89 | After its minus sign, a negative integer renders as its magnitude. |
| Numerals.IntToStringInjective | index.js:89 | Two integers render the same exactly when they are equal. |
| Numerals.ToNumberOfString | index.js:679-693 | `+String(n)` is n. |
| Routes.ViewState.constructor | index.js:661-663 | Before any refresh, `VIS.cur_view` is undefined and no navigation item is active. |
| Routes.ViewState.Refresh | index.js:655-716 | The view dispatched and its `success` are as `ParseHash` and `Succeeds` say. `cur_view` becomes the dispatched view on success. A failure with no current view falls back on the model view. Any other failure keeps the current view. The active navigation item is `view_parsed[1]`, with "model" when the hash has no second segment. |
| Routes.DigitsHaveNoSlash | index.js:166-168 | A decimal rendering contains no "/". |
| Routes.RouteSegments | index.js:658-659 | A hash `#/name/param` with no "/" in the name or the parameter splits into "#", the name and the parameter. |
| Routes.TopicRoundTrip | index.js:658-714 | The hash `topic_link(t)` dispatches to the topic view with parameter `+param - 1 == t`. It succeeds and highlights "topic". |
| Routes.DocRoundTrip | index.js:658-714 | The hash `"#/doc/" + d` dispatches to the document view with parameter d. It succeeds and highlights "doc". |
| Routes.NoSegmentIsModel | index.js:658-714 | A hash with no "/" has no second segment. It selects the model view, succeeds and highlights "model". |
| Routes.UnknownNameFails | index.js:665-698 | A second segment that names no view gives the `default` branch, whose `success` is false. |
| Routes.SuccessCases | index.js:665-698 | The dispatch fails exactly for an unknown view name or for "word" without a parameter. |
| Routes.EmptyNameFails | index.js:665-698 | A hash whose first segment has no "/" and is followed by a lone "/", such as "#/", has an empty view name and fails. |
| Routes.BareWordFails | index.js:685-688 | A hash such as "#/word", with the name "word" and no third segment, passes an undefined word, and `word_view` returns false. |
| Routes.LabelMatchesLink | index.js:157-168 | The number at the head of `topic_label(m, t, n)` is the parameter of `topic_link(t)`: both are t + 1. |
| Routes.DoiRoundTrip | index.js:207-212 | The DOI can be read back from `doc_uri` through the same proxy. |
| Routes.DocUriInjective | index.js:207-212 | Two DOIs give the same link exactly when they are equal. |
| Routes.ShippedDocUri | index.js:20 | With the shipped `VIS.uri_proxy`, a document's link is "http://dx.doi.org.proxy.libraries.rutgers.edu/" followed by its DOI, and the DOI reads back from it. |

## Left out

- The rendering of every view is not modelled: `topic_view`, `word_view`, `doc_view`, `bib_view`, `model_view`, `about_view` and `view_loading` build d3 selections on the browser DOM. Only their boolean results enter the model. `word_view` returns false without a word. `topic_view` and `doc_view` return true even while the data is loading. What they do with a NaN parameter is not modelled. A view can also throw instead of returning. For example, `bib_view` calls `bib_sort`, which can reach a throwing `doc_sort_key`. The exception then leaves `view_refresh` before `VIS.cur_view` is updated. `Routes.Succeeds` counts every view other than the two failing cases as a success and does not model that throw.
- `plot_topic_yearly` and `plot_svg` are not modelled. They draw SVG over floating-point d3 scales.
- `load_data`, `main` and `setup_vis` are not modelled. They do asynchronous file fetches, register callbacks, look up DOM nodes and merge global preferences.
- The model object (`m.meta`, `m.n_docs`, `m.topic_words` and the rest) is defined in a file that is not part of this model. The corpus is a sequence of `Doc` records, and the topic words are a parameter.
- `VIS.cite_date_format` is a d3 date format. It is the function parameter `dateFormat`, applied to the timestamp.
- `Corpus.SortKey`: `toUpperCase` is modelled on ASCII letters only. Full Unicode case mapping, which can change a string's length, is not modelled.
- `Order.LexLe`: strings are compared character by character. JavaScript compares them by UTF-16 code units, which differs only for characters outside the Basic Multilingual Plane.
- `Corpus.Doc`: a date is an integer timestamp plus its year. `YearFollowsDate` assumes that the year never decreases as the timestamp grows, as it does for valid dates. Invalid dates, whose `+date` is NaN, are not modelled.
- `Sorting.SortBy`: `Array.prototype.sort` is modelled by an insertion sort. Only sortedness and permutation are stated. The order of ties depends on the engine and is not stated.
- `Sorting.Ranks`: the source recomputes a key on every comparison. The model computes each key once per document. This changes nothing, because the keys do not change during the sort. A document without a sort key is given the empty key in its place. `Bibliography.BibSort` proves that such a document is never compared by the minor sort.
- `Bibliography.BibSort` requires the inputs on which `bib_sort` does not throw. `doc_sort_key` throws for a first author whose name is empty or ends in a space. Under the "alpha" major, `major_split` calls it on every document. Under the "alpha" minor, the sort of a run calls it on every member of a run of two or more. So the requirements are: every document has a key under the "alpha" major (`Keyed`), and under the "alpha" minor a document without a key is alone under its heading (`MinorKeyed`). The model does not return the throw itself, nor say at which comparison the sort would raise it.
- `Bibliography.BibSort` returns the console lines as the result `log` instead of writing them to the console.
- `Numerals.ToNumber` is unary `+` for the strings dfr-browser itself writes into its hashes: decimal digits, with the empty string giving 0. Signs, decimal points, exponents, surrounding white space and hexadecimal literals give NaN in the model, although JavaScript reads them as numbers.
- `Numerals.NatToString`: `toString` of an integer at or above 1e21 switches to exponent notation in JavaScript. The model always writes the digits out.
- `Routes.ViewState.Refresh`: `VIS.cur_view` is modelled by the name of the view's `div`. Hiding the old `div`, showing the new one and toggling the `active` class are reduced to the fields `curView` and `activeNav`. The fallback call `model_view(m)` after a failure is modelled only through `curView`.

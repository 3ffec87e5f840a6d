/** The string operations of JavaScript that the dashboard relies on, over `seq<char>`. */
module Strings {

  /** `s.split(c)` for a one-character separator: the pieces between the
      occurrences of `c`, in order. There is always at least one piece, and no
      piece contains the separator. */
  function Split(s: string, c: char): (r: seq<string>)
    ensures |r| >= 1
    ensures forall k :: 0 <= k < |r| ==> c !in r[k]
  {
    if s == [] then [""]
    else
      var rest := Split(s[1..], c);
      if s[0] == c then [""] + rest
      else [[s[0]] + rest[0]] + rest[1..]
  }

  /** `parts.join(sep)`. */
  function Join(parts: seq<string>, sep: string): string
  {
    if |parts| == 0 then ""
    else if |parts| == 1 then parts[0]
    else parts[0] + sep + Join(parts[1..], sep)
  }

  /** The last element of a non-empty sequence (what `pop()` removes). */
  function Last<T>(s: seq<T>): T
    requires |s| > 0
  {
    s[|s| - 1]
  }

  /** Joining the pieces of a split with the separator gives back the string. */
  lemma {:induction false} JoinSplit(s: string, c: char)
    ensures Join(Split(s, c), [c]) == s
  {
    if s != [] {
      var rest := Split(s[1..], c);
      JoinSplit(s[1..], c);
      if s[0] == c {
        assert Split(s, c) == [""] + rest;
        assert ([""] + rest)[1..] == rest;
        assert s == [c] + s[1..];
      } else {
        var r := Split(s, c);
        assert r == [[s[0]] + rest[0]] + rest[1..];
        if |rest| == 1 {
          assert s == [s[0]] + s[1..];
        } else {
          assert r[1..] == rest[1..];
          assert Join(rest, [c]) == rest[0] + [c] + Join(rest[1..], [c]);
          assert s == [s[0]] + s[1..];
        }
      }
    }
  }

  /** A string without the separator splits into itself alone. */
  lemma {:induction false} SplitNoSeparator(p: string, c: char)
    requires c !in p
    ensures Split(p, c) == [p]
  {
    if p != [] {
      SplitNoSeparator(p[1..], c);
      assert p == [p[0]] + p[1..];
    }
  }

  /** A separator-free prefix followed by the separator splits off as one piece. */
  lemma {:induction false} SplitAfterPiece(p: string, c: char, t: string)
    requires c !in p
    ensures Split(p + [c] + t, c) == [p] + Split(t, c)
  {
    var s := p + [c] + t;
    if p == [] {
      assert s[0] == c && s[1..] == t;
    } else {
      assert s[0] == p[0] && s[1..] == p[1..] + [c] + t;
      SplitAfterPiece(p[1..], c, t);
      assert [p[0]] + p[1..] == p;
    }
  }

  /** Splitting separator-free pieces joined by the separator gives back the pieces. */
  lemma {:induction false} SplitJoin(parts: seq<string>, c: char)
    requires |parts| >= 1
    requires forall k :: 0 <= k < |parts| ==> c !in parts[k]
    ensures Split(Join(parts, [c]), c) == parts
  {
    if |parts| == 1 {
      SplitNoSeparator(parts[0], c);
    } else {
      SplitJoin(parts[1..], c);
      SplitAfterPiece(parts[0], c, Join(parts[1..], [c]));
      assert [parts[0]] + parts[1..] == parts;
    }
  }

  /** Joining with one more part at the end appends the separator and that part. */
  lemma {:induction false} JoinSnoc(parts: seq<string>, q: string, sep: string)
    requires |parts| >= 1
    ensures Join(parts + [q], sep) == Join(parts, sep) + sep + q
  {
    if |parts| == 1 {
      assert (parts + [q])[1..] == [q];
    } else {
      assert (parts + [q])[1..] == parts[1..] + [q];
      JoinSnoc(parts[1..], q, sep);
    }
  }

  /** The position just after the last `c` in `s`, or 0 when `s` holds none:
      where the last `c`-separated token of `s` begins. */
  function LastTokenStart(s: string, c: char): (k: nat)
    ensures k <= |s| && c !in s[k..]
    ensures k == 0 || s[k - 1] == c
  {
    if s == [] then 0
    else if s[|s| - 1] == c then |s|
    else
      var k := LastTokenStart(s[..|s| - 1], c);
      assert s[k..] == s[..|s| - 1][k..] + [s[|s| - 1]];
      k
  }

  /** Only one position of `s` starts a separator-free suffix that is all of
      `s` or follows a separator. */
  lemma {:induction false} LastTokenStartUnique(s: string, c: char, k: nat)
    requires k <= |s| && c !in s[k..] && (k == 0 || s[k - 1] == c)
    ensures k == LastTokenStart(s, c)
  {
    if s != [] {
      if s[|s| - 1] == c {
      } else {
        var init := s[..|s| - 1];
        assert k < |s|;
        assert init[k..] == s[k..][..|s| - 1 - k];
        LastTokenStartUnique(init, c, k);
      }
    }
  }

  /** The last piece of a split is the text after the last separator. */
  lemma LastPiece(s: string, c: char)
    ensures Last(Split(s, c)) == s[LastTokenStart(s, c)..]
  {
    var r := Split(s, c);
    var t := Last(r);
    JoinSplit(s, c);
    if |r| == 1 {
      LastTokenStartUnique(s, c, 0);
    } else {
      assert r == r[..|r| - 1] + [t];
      JoinSnoc(r[..|r| - 1], t, [c]);
      var front := Join(r[..|r| - 1], [c]);
      assert s == front + [c] + t;
      assert s[|front| + 1..] == t;
      LastTokenStartUnique(s, c, |front| + 1);
    }
  }

  /** `s.replace(/x/g, y)` for single characters. */
  function ReplaceChar(s: string, x: char, y: char): (r: string)
    ensures |r| == |s|
    ensures forall k :: 0 <= k < |s| ==> r[k] == (if s[k] == x then y else s[k])
  {
    if s == [] then []
    else [if s[0] == x then y else s[0]] + ReplaceChar(s[1..], x, y)
  }

  /** `s.replace(/x/g, "")`: every `x` is removed and every other character kept. */
  function RemoveChar(s: string, x: char): (r: string)
    ensures x !in r
  {
    if s == [] then []
    else (if s[0] == x then [] else [s[0]]) + RemoveChar(s[1..], x)
  }

  /** Every character other than x is kept as often as it occurs. */
  lemma {:induction false} RemoveCharCounts(s: string, x: char)
    ensures multiset(RemoveChar(s, x)) == multiset(s)[x := 0]
  {
    if s != [] {
      assert s == [s[0]] + s[1..];
      RemoveCharCounts(s[1..], x);
    }
  }

  /** Removing from a concatenation removes from each part, keeping the order. */
  lemma {:induction false} RemoveCharConcat(a: string, b: string, x: char)
    ensures RemoveChar(a + b, x) == RemoveChar(a, x) + RemoveChar(b, x)
  {
    if a == [] {
      assert a + b == b;
    } else {
      var c, t := a[0], a[1..];
      assert a == [c] + t && a + b == [c] + (t + b);
      RemoveCharCons(c, t + b, x);
      RemoveCharCons(c, t, x);
      RemoveCharConcat(t, b, x);
    }
  }

  lemma RemoveCharCons(c: char, t: string, x: char)
    ensures RemoveChar([c] + t, x) == (if c == x then [] else [c]) + RemoveChar(t, x)
  {
    assert ([c] + t)[1..] == t;
  }

  /** A character other than x is kept, and x itself is dropped. */
  lemma RemoveCharSingle(c: char, x: char)
    ensures RemoveChar([c], x) == if c == x then [] else [c]
  {
  }

  /** `toUpperCase` on one character, for the ASCII letters. */
  function UpperAscii(ch: char): char
  {
    if 'a' <= ch <= 'z' then (ch as int - 32) as char else ch
  }
}

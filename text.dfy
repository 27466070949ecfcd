/** The string primitives the lookup tools rely on, over ASCII:
    `str.lower()`, `str.split()` with no separator, and the `in` test for
    substrings. */
module Text {

  /** The characters `str.split()` treats as separators, restricted to ASCII:
      tab, line feed, vertical tab, form feed, carriage return, the four
      information separators U+001C..U+001F, and space. */
  predicate IsSpace(c: char)
  {
    ('\t' <= c <= '\r') || ('\U{1C}' <= c <= '\U{1F}') || c == ' '
  }

  predicate NoSpace(s: string)
  {
    forall i :: 0 <= i < |s| ==> !IsSpace(s[i])
  }

  predicate AllSpace(s: string)
  {
    forall i :: 0 <= i < |s| ==> IsSpace(s[i])
  }

  predicate IsUpper(c: char)
  {
    'A' <= c <= 'Z'
  }

  function LowerChar(c: char): (r: char)
    ensures !IsUpper(r)
    ensures IsUpper(c) ==> r as int == c as int + 32
    ensures !IsUpper(c) ==> r == c
  {
    if IsUpper(c) then (c as int + 32) as char else c
  }

  /** `str.lower()` on ASCII text: each upper-case letter is replaced by its
      lower-case counterpart, every other character is kept. */
  function Lower(s: string): (r: string)
    ensures |r| == |s|
    ensures forall i :: 0 <= i < |s| ==> r[i] == LowerChar(s[i])
  {
    seq(|s|, i requires 0 <= i < |s| => LowerChar(s[i]))
  }

  /** Lower-casing twice is lower-casing once, and lower-cased text holds no
      upper-case letter. */
  lemma LowerIdempotent(s: string)
    ensures Lower(Lower(s)) == Lower(s)
    ensures forall i :: 0 <= i < |s| ==> !IsUpper(Lower(s)[i])
  {
  }

  /** Python's `needle in hay` for strings: `needle` occurs as a contiguous
      run of `hay`. The empty string occurs in every string, and a needle
      longer than `hay` never does. */
  predicate Contains(hay: string, needle: string)
    ensures needle == [] ==> Contains(hay, needle)
    ensures Contains(hay, needle) ==> |needle| <= |hay|
    decreases |hay|
  {
    needle <= hay || (|hay| > 0 && Contains(hay[1..], needle))
  }

  /** `needle` sits in `hay` starting at position `i`. */
  predicate OccursAt(hay: string, needle: string, i: int)
  {
    0 <= i <= |hay| - |needle| && hay[i..i + |needle|] == needle
  }

  /** `Contains` holds exactly when some window of `hay` equals `needle`. */
  lemma {:induction false} ContainsAt(hay: string, needle: string)
    ensures Contains(hay, needle) <==> exists i :: OccursAt(hay, needle, i)
    decreases |hay|
  {
    if needle <= hay {
      assert OccursAt(hay, needle, 0);
    } else if |hay| > 0 {
      ContainsAt(hay[1..], needle);
      if Contains(hay[1..], needle) {
        var i :| OccursAt(hay[1..], needle, i);
        assert hay[i + 1..i + 1 + |needle|] == hay[1..][i..i + |needle|];
        assert OccursAt(hay, needle, i + 1);
      }
      if exists i :: OccursAt(hay, needle, i) {
        var i :| OccursAt(hay, needle, i);
        if i > 0 {
          assert hay[1..][i - 1..i - 1 + |needle|] == hay[i..i + |needle|];
          assert OccursAt(hay[1..], needle, i - 1);
        }
      }
    }
  }

  /** The longest prefix of `s` holding no separator. */
  function Word(s: string): (w: string)
    ensures w <= s && NoSpace(w)
    ensures |w| < |s| ==> IsSpace(s[|w|])
  {
    if s == [] || IsSpace(s[0]) then [] else [s[0]] + Word(s[1..])
  }

  /** `str.split()` with no separator: the maximal runs of non-separator
      characters, in order; leading, trailing and repeated separators yield no
      empty token. */
  function Split(s: string): (tokens: seq<string>)
    ensures forall k :: 0 <= k < |tokens| ==> tokens[k] != [] && NoSpace(tokens[k])
    decreases |s|
  {
    if s == [] then []
    else if IsSpace(s[0]) then Split(s[1..])
    else
      var w := Word(s);
      [w] + Split(s[|w|..])
  }

  /** A string splits into no tokens exactly when it is made of separators
      only (in particular the empty string). */
  lemma {:induction false} SplitEmptyIffBlank(s: string)
    ensures Split(s) == [] <==> AllSpace(s)
    decreases |s|
  {
    if s != [] && IsSpace(s[0]) {
      SplitEmptyIffBlank(s[1..]);
      assert AllSpace(s) <==> AllSpace(s[1..]) by {
        if AllSpace(s[1..]) {
          forall i | 0 <= i < |s| ensures IsSpace(s[i]) {
            if i > 0 { assert s[i] == s[1..][i - 1]; }
          }
        }
      }
    }
  }

  /** A word followed by a separator ends where the separator starts. */
  lemma {:induction false} WordStopsAtSpace(a: string, b: string)
    requires b != [] && IsSpace(b[0])
    ensures Word(a + b) == Word(a)
    decreases |a|
  {
    if a != [] && !IsSpace(a[0]) {
      assert (a + b)[1..] == a[1..] + b;
      WordStopsAtSpace(a[1..], b);
    }
  }

  /** Splitting text joined by a space is splitting each side: the token
      list of `a + " " + b` is that of `a` followed by that of `b`. */
  lemma {:induction false} SplitAtSpace(a: string, b: string)
    ensures Split(a + " " + b) == Split(a) + Split(b)
    decreases |a|
  {
    var s := a + " " + b;
    if a == [] {
      assert s[1..] == b;
    } else if IsSpace(a[0]) {
      assert s[1..] == a[1..] + " " + b;
      SplitAtSpace(a[1..], b);
    } else {
      WordStopsAtSpace(a, " " + b);
      assert s == a + (" " + b);
      var w := Word(a);
      assert s[|w|..] == a[|w|..] + " " + b;
      SplitAtSpace(a[|w|..], b);
    }
  }

  /** A single separator-free word splits into itself. */
  lemma {:induction false} SplitWord(t: string)
    requires t != [] && NoSpace(t)
    ensures Word(t) == t
    ensures Split(t) == [t]
    decreases |t|
  {
    if |t| > 1 {
      SplitWord(t[1..]);
    }
    assert t[|t|..] == [];
  }

  /** Words joined by single spaces, as `" ".join(tokens)`. */
  function JoinWords(tokens: seq<string>): string
  {
    if tokens == [] then []
    else if |tokens| == 1 then tokens[0]
    else tokens[0] + " " + JoinWords(tokens[1..])
  }

  /** Round trip: splitting words joined by spaces gives the words back. */
  lemma {:induction false} SplitJoinWords(tokens: seq<string>)
    requires forall k :: 0 <= k < |tokens| ==> tokens[k] != [] && NoSpace(tokens[k])
    ensures Split(JoinWords(tokens)) == tokens
  {
    if |tokens| == 1 {
      SplitWord(tokens[0]);
    } else if |tokens| > 1 {
      SplitAtSpace(tokens[0], JoinWords(tokens[1..]));
      SplitWord(tokens[0]);
      SplitJoinWords(tokens[1..]);
    }
  }
}

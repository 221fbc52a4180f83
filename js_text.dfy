/**
 * The two pieces of JavaScript string behaviour the catalog sync relies on:
 * the relational operator `<` on strings, which compares UTF-16 code units
 * one by one, and `s.split(':')[0]`, the title part of a title-index entry.
 */
module JsText {

  /**
   * The first UTF-16 code unit of `c`: `c` itself inside the Basic
   * Multilingual Plane, its high surrogate above it.
   */
  function FirstCodeUnit(c: char): (u: int)
    ensures 0 <= u < 0x10000
    ensures (c as int) < 0x10000 ==> u == c as int
    ensures 0x10000 <= (c as int) ==> 0xD800 <= u < 0xDC00
  {
    if (c as int) < 0x10000 then c as int else 0xD800 + (c as int - 0x10000) / 0x400
  }

  /**
   * `a` sorts before `b` in UTF-16 code-unit order. Two characters differ in
   * their first code unit unless both lie above the Basic Multilingual Plane
   * with the same high surrogate, in which case the low surrogates, and hence
   * the code points, decide.
   */
  predicate CharBefore(a: char, b: char)
  {
    FirstCodeUnit(a) < FirstCodeUnit(b) || (FirstCodeUnit(a) == FirstCodeUnit(b) && a < b)
  }

  /** JavaScript's `s < t` on strings: lexicographic order, a proper prefix first. */
  predicate Less(s: string, t: string)
    ensures s < t ==> Less(s, t)
    ensures Less(s, t) ==> s != t
    decreases |s|
  {
    |t| > 0 && (|s| == 0 || CharBefore(s[0], t[0]) || (s[0] == t[0] && Less(s[1..], t[1..])))
  }

  lemma {:induction false} LessTransitive(r: string, s: string, t: string)
    requires Less(r, s) && Less(s, t)
    ensures Less(r, t)
    decreases |r|
  {
    if |r| > 0 && r[0] == s[0] && s[0] == t[0] {
      LessTransitive(r[1..], s[1..], t[1..]);
    }
  }

  /** Two different strings are ordered one way or the other. */
  lemma {:induction false} LessTotal(s: string, t: string)
    requires s != t
    ensures Less(s, t) || Less(t, s)
    decreases |s|
  {
    if |s| > 0 && |t| > 0 && s[0] == t[0] {
      assert s == [s[0]] + s[1..] && t == [t[0]] + t[1..];
      LessTotal(s[1..], t[1..]);
    }
  }

  lemma {:induction false} LessAsymmetric(s: string, t: string)
    requires Less(s, t)
    ensures !Less(t, s)
  {
    if Less(t, s) {
      LessTransitive(s, t, s);
    }
  }

  /** A common prefix leaves the order of the two strings to what follows it. */
  lemma {:induction false} LessAfterCommonPrefix(p: string, a: string, b: string)
    ensures Less(p + a, p + b) <==> Less(a, b)
    decreases |p|
  {
    if p != [] {
      assert (p + a)[0] == p[0] && (p + b)[0] == p[0];
      assert (p + a)[1..] == p[1..] + a && (p + b)[1..] == p[1..] + b;
      LessAfterCommonPrefix(p[1..], a, b);
    } else {
      assert p + a == a && p + b == b;
    }
  }

  /**
   * Every character of `t` sorts after the separator `:` (so `t` holds no
   * `:` either).
   */
  predicate SortsAboveSeparator(t: string)
  {
    forall k :: 0 <= k < |t| ==> CharBefore(':', t[k])
  }

  /**
   * For titles that sort above `:` throughout, the order of two members
   * `title + ':' + id` with different titles is the order of their titles.
   */
  lemma {:induction false} EntryOrderIsTitleOrder(t1: string, id1: string, t2: string, id2: string)
    requires SortsAboveSeparator(t1) && SortsAboveSeparator(t2) && t1 != t2
    requires Less(t1 + ":" + id1, t2 + ":" + id2)
    ensures Less(t1, t2)
    decreases |t1|
  {
    var e1, e2 := t1 + ":" + id1, t2 + ":" + id2;
    if t1 != [] && t2 != [] {
      assert e1[0] == t1[0] && e2[0] == t2[0];
      if t1[0] == t2[0] {
        assert e1[1..] == t1[1..] + ":" + id1 && e2[1..] == t2[1..] + ":" + id2;
        assert t1 == [t1[0]] + t1[1..] && t2 == [t2[0]] + t2[1..];
        EntryOrderIsTitleOrder(t1[1..], id1, t2[1..], id2);
      }
    }
  }

  /**
   * `s.split(':')[0]`: the text before the first `:` of `s`, or all of `s`
   * when it holds no `:`.
   */
  function TitlePrefix(s: string): (r: string)
    ensures r <= s && ':' !in r
    ensures |r| < |s| ==> s[|r|] == ':'
    decreases |s|
  {
    if s == [] || s[0] == ':' then [] else [s[0]] + TitlePrefix(s[1..])
  }

  /** A title without `:` is recovered from `title + ':' + id`. */
  lemma {:induction false} TitlePrefixOfEntry(title: string, id: string)
    requires ':' !in title
    ensures TitlePrefix(title + ":" + id) == title
    decreases |title|
  {
    if title != [] {
      assert (title + ":" + id)[1..] == title[1..] + ":" + id;
      TitlePrefixOfEntry(title[1..], id);
    }
  }
}

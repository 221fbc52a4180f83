/**
 * The title-index diff of `getDifferencebyTitle`: a two-pointer merge over
 * the two title indices, in the order the store returns them, that collects
 * the common titles, then one filtering pass per index that collects the
 * "only" titles. The loops are modelled exactly as written, including where
 * the filtering passes stop (see `OnlyIn`).
 */
module TitleDiff {
  import opened JsText

  /** The title part of every index entry, in index order. */
  function Prefixes(entries: seq<string>): (r: seq<string>)
    ensures |r| == |entries|
    ensures forall k :: 0 <= k < |r| ==> r[k] == TitlePrefix(entries[k])
  {
    seq(|entries|, k requires 0 <= k < |entries| => TitlePrefix(entries[k]))
  }

  /** The elements of `s` occur in `t`, in the same order, possibly with gaps. */
  predicate IsSubseq<T(==)>(s: seq<T>, t: seq<T>)
    decreases |t|
  {
    s == [] || (t != [] && ((s[0] == t[0] && IsSubseq(s[1..], t[1..])) || IsSubseq(s, t[1..])))
  }

  predicate StrictlyIncreasing(s: seq<string>)
  {
    forall p, q :: 0 <= p < q < |s| ==> Less(s[p], s[q])
  }

  /** The titles the merge loop pushes onto `intersections`. */
  function Common(a: seq<string>, b: seq<string>): seq<string>
    decreases |a| + |b|
  {
    if a == [] || b == [] then []
    else if a[0] == b[0] then [a[0]] + Common(a[1..], b[1..])
    else if Less(a[0], b[0]) then Common(a[1..], b)
    else Common(a, b[1..])
  }

  /**
   * The titles one filtering pass pushes onto its "only" list: walking `xs`,
   * a title different from the next unmatched common title is pushed, an
   * equal one consumes that common title, and the pass ends as soon as every
   * common title is consumed.
   */
  function OnlyIn(xs: seq<string>, common: seq<string>): seq<string>
    decreases |xs|
  {
    if xs == [] || common == [] then []
    else if xs[0] != common[0] then [xs[0]] + OnlyIn(xs[1..], common)
    else OnlyIn(xs[1..], common[1..])
  }

  /** The merge loop of `getDifferencebyTitle` (its first `while`). */
  method MergeTitles(ebayIndices: seq<string>, shopifyIndices: seq<string>)
    returns (intersections: seq<string>, ghost steps: nat)
    ensures intersections == Common(Prefixes(ebayIndices), Prefixes(shopifyIndices))
    ensures steps <= |ebayIndices| + |shopifyIndices|
  {
    ghost var e, s := Prefixes(ebayIndices), Prefixes(shopifyIndices);
    intersections := [];
    steps := 0;
    var i, j := 0, 0;
    while i < |ebayIndices| && j < |shopifyIndices|
      invariant 0 <= i <= |ebayIndices| && 0 <= j <= |shopifyIndices|
      invariant intersections + Common(e[i..], s[j..]) == Common(e, s)
      invariant steps <= i + j
      decreases |ebayIndices| - i + |shopifyIndices| - j
    {
      steps := steps + 1;
      assert e[i..][1..] == e[i + 1..] && s[j..][1..] == s[j + 1..];
      var ebayTitle, shopifyTitle := TitlePrefix(ebayIndices[i]), TitlePrefix(shopifyIndices[j]);
      assert e[i..][0] == ebayTitle && s[j..][0] == shopifyTitle;
      if ebayTitle == shopifyTitle {
        intersections := intersections + [ebayTitle];
        i, j := i + 1, j + 1;
      } else if Less(ebayTitle, shopifyTitle) {
        i := i + 1;
      } else {
        j := j + 1;
      }
    }
    assert e[i..] == [] || s[j..] == [];
  }

  /**
   * One filtering loop of `getDifferencebyTitle` (its second and third
   * `while`, which differ only in the index they walk).
   */
  method FilterOnly(indices: seq<string>, intersections: seq<string>) returns (only: seq<string>)
    ensures only == OnlyIn(Prefixes(indices), intersections)
  {
    ghost var e := Prefixes(indices);
    only := [];
    var i, k := 0, 0;
    while i < |indices| && k < |intersections|
      invariant 0 <= i <= |indices| && 0 <= k <= |intersections|
      invariant only + OnlyIn(e[i..], intersections[k..]) == OnlyIn(e, intersections)
    {
      assert e[i..][1..] == e[i + 1..] && intersections[k..][1..] == intersections[k + 1..];
      var title := TitlePrefix(indices[i]);
      assert e[i..][0] == title;
      if title != intersections[k] {
        only := only + [title];
      } else {
        k := k + 1;
      }
      i := i + 1;
    }
    assert e[i..] == [] || intersections[k..] == [];
  }

  /**
   * `getDifferencebyTitle` on the two ranges read from the eBay and the
   * Shopify title index.
   */
  method DiffByTitle(ebayIndices: seq<string>, shopifyIndices: seq<string>)
    returns (ebayOnly: seq<string>, shopifyOnly: seq<string>, commonProducts: seq<string>)
    ensures commonProducts == Common(Prefixes(ebayIndices), Prefixes(shopifyIndices))
    ensures ebayOnly == OnlyIn(Prefixes(ebayIndices), commonProducts)
    ensures shopifyOnly == OnlyIn(Prefixes(shopifyIndices), commonProducts)
    ensures commonProducts == [] ==> ebayOnly == [] && shopifyOnly == []
  {
    ghost var steps;
    commonProducts, steps := MergeTitles(ebayIndices, shopifyIndices);
    ebayOnly := FilterOnly(ebayIndices, commonProducts);
    shopifyOnly := FilterOnly(shopifyIndices, commonProducts);
  }

  /**
   * What the "only" lists are evidently meant to hold: every title of `xs`
   * that is not a common title, whether it comes before or after the last
   * common one.
   */
  function OnlyInCorrected(xs: seq<string>, common: seq<string>): (r: seq<string>)
    ensures IsSubseq(r, xs)
    ensures forall x :: x in r <==> x in xs && x !in common
    decreases |xs|
  {
    if xs == [] then []
    else if xs[0] in common then OnlyInCorrected(xs[1..], common)
    else [xs[0]] + OnlyInCorrected(xs[1..], common)
  }

  // ---------------------------------------------------------------------
  // Subsequences

  lemma {:induction false} SubseqMembers<T>(s: seq<T>, t: seq<T>)
    requires IsSubseq(s, t)
    ensures |s| <= |t|
    ensures forall x :: x in s ==> x in t
    decreases |t|
  {
    if s != [] {
      if s[0] == t[0] && IsSubseq(s[1..], t[1..]) {
        SubseqMembers(s[1..], t[1..]);
        assert forall x :: x in s ==> x == s[0] || x in s[1..];
      } else {
        SubseqMembers(s, t[1..]);
      }
    }
  }

  lemma {:induction false} SubseqDropHead<T>(s: seq<T>, t: seq<T>)
    requires IsSubseq(s, t) && s != []
    ensures IsSubseq(s[1..], t)
    decreases |t|
  {
    if !(s[0] == t[0] && IsSubseq(s[1..], t[1..])) {
      SubseqDropHead(s, t[1..]);
    }
  }

  // ---------------------------------------------------------------------
  // The merge loop

  /** The common titles come, in order, from both title sequences. */
  lemma {:induction false} CommonIsSubseq(a: seq<string>, b: seq<string>)
    ensures IsSubseq(Common(a, b), a) && IsSubseq(Common(a, b), b)
    decreases |a| + |b|
  {
    if a != [] && b != [] {
      if a[0] == b[0] {
        CommonIsSubseq(a[1..], b[1..]);
      } else if Less(a[0], b[0]) {
        CommonIsSubseq(a[1..], b);
      } else {
        CommonIsSubseq(a, b[1..]);
      }
    }
  }

  /**
   * `CommonProducts` is no longer than either index, and each of its titles
   * is the text before the first `:` of some eBay entry and of some Shopify
   * entry.
   */
  lemma CommonTitlesFromBothIndices(ebayIndices: seq<string>, shopifyIndices: seq<string>)
    ensures var c := Common(Prefixes(ebayIndices), Prefixes(shopifyIndices));
      |c| <= |ebayIndices| && |c| <= |shopifyIndices| &&
      forall x :: x in c ==>
        (exists p :: 0 <= p < |ebayIndices| && TitlePrefix(ebayIndices[p]) == x) &&
        (exists q :: 0 <= q < |shopifyIndices| && TitlePrefix(shopifyIndices[q]) == x)
  {
    var e, s := Prefixes(ebayIndices), Prefixes(shopifyIndices);
    CommonIsSubseq(e, s);
    SubseqMembers(Common(e, s), e);
    SubseqMembers(Common(e, s), s);
    forall x | x in Common(e, s)
      ensures exists p :: 0 <= p < |ebayIndices| && TitlePrefix(ebayIndices[p]) == x
      ensures exists q :: 0 <= q < |shopifyIndices| && TitlePrefix(shopifyIndices[q]) == x
    {
      var p :| 0 <= p < |e| && e[p] == x;
      var q :| 0 <= q < |s| && s[q] == x;
      assert TitlePrefix(ebayIndices[p]) == x && TitlePrefix(shopifyIndices[q]) == x;
    }
  }

  /**
   * When both title sequences are strictly increasing, the merge yields
   * exactly their intersection, strictly increasing.
   */
  lemma {:induction false} CommonIsSortedIntersection(a: seq<string>, b: seq<string>)
    requires StrictlyIncreasing(a) && StrictlyIncreasing(b)
    ensures StrictlyIncreasing(Common(a, b))
    ensures forall x :: x in Common(a, b) <==> x in a && x in b
    decreases |a| + |b|
  {
    if a != [] && b != [] {
      assert forall x :: x in a[1..] ==> Less(a[0], x) by {
        forall x | x in a[1..] ensures Less(a[0], x) {
          var p :| 0 <= p < |a[1..]| && a[1..][p] == x;
          assert a[p + 1] == x;
        }
      }
      assert forall x :: x in b[1..] ==> Less(b[0], x) by {
        forall x | x in b[1..] ensures Less(b[0], x) {
          var p :| 0 <= p < |b[1..]| && b[1..][p] == x;
          assert b[p + 1] == x;
        }
      }
      assert forall x :: x in a <==> x == a[0] || x in a[1..] by {
        assert a == [a[0]] + a[1..];
      }
      assert forall x :: x in b <==> x == b[0] || x in b[1..] by {
        assert b == [b[0]] + b[1..];
      }
      if a[0] == b[0] {
        var rest := Common(a[1..], b[1..]);
        CommonIsSortedIntersection(a[1..], b[1..]);
        forall p, q | 0 <= p < q < |[a[0]] + rest|
          ensures Less(([a[0]] + rest)[p], ([a[0]] + rest)[q])
        {
          if p > 0 {
            assert ([a[0]] + rest)[p] == rest[p - 1];
          }
          assert ([a[0]] + rest)[q] == rest[q - 1];
        }
      } else if Less(a[0], b[0]) {
        CommonIsSortedIntersection(a[1..], b);
        forall x | x in b ensures x != a[0] {
          if x != b[0] {
            LessTransitive(a[0], b[0], x);
          }
        }
      } else {
        LessTotal(a[0], b[0]);
        CommonIsSortedIntersection(a, b[1..]);
        forall x | x in a ensures x != b[0] {
          if x != a[0] {
            LessTransitive(b[0], a[0], x);
          }
        }
      }
    }
  }

  /** The merge does not depend on which index is walked as the first one. */
  lemma {:induction false} CommonSymmetric(a: seq<string>, b: seq<string>)
    ensures Common(a, b) == Common(b, a)
    decreases |a| + |b|
  {
    if a != [] && b != [] {
      if a[0] == b[0] {
        CommonSymmetric(a[1..], b[1..]);
      } else if Less(a[0], b[0]) {
        LessAsymmetric(a[0], b[0]);
        CommonSymmetric(a[1..], b);
      } else {
        LessTotal(a[0], b[0]);
        CommonSymmetric(a, b[1..]);
      }
    }
  }

  /** Swapping the two indices swaps the two "only" lists. */
  lemma DiffSymmetric(x: seq<string>, y: seq<string>)
    ensures var cxy := Common(Prefixes(x), Prefixes(y));
      var cyx := Common(Prefixes(y), Prefixes(x));
      cxy == cyx && OnlyIn(Prefixes(x), cxy) == OnlyIn(Prefixes(x), cyx)
        && OnlyIn(Prefixes(y), cxy) == OnlyIn(Prefixes(y), cyx)
  {
    CommonSymmetric(Prefixes(x), Prefixes(y));
  }

  // ---------------------------------------------------------------------
  // The filtering loops

  /** Each "only" list takes its titles, in order, from its own index. */
  lemma {:induction false} OnlyInIsSubseq(xs: seq<string>, common: seq<string>)
    ensures IsSubseq(OnlyIn(xs, common), xs)
    ensures |OnlyIn(xs, common)| <= |xs|
    decreases |xs|
  {
    if xs != [] && common != [] {
      if xs[0] != common[0] {
        OnlyInIsSubseq(xs[1..], common);
        assert ([xs[0]] + OnlyIn(xs[1..], common))[1..] == OnlyIn(xs[1..], common);
      } else {
        OnlyInIsSubseq(xs[1..], common[1..]);
      }
    }
    SubseqMembers(OnlyIn(xs, common), xs);
  }

  /**
   * Once every common title has been matched within `xs`, whatever follows
   * `xs` is never looked at.
   */
  lemma {:induction false} OnlyInIgnoresTail(xs: seq<string>, tail: seq<string>, common: seq<string>)
    requires IsSubseq(common, xs)
    ensures OnlyIn(xs + tail, common) == OnlyIn(xs, common)
    decreases |xs|
  {
    if common != [] {
      assert (xs + tail)[0] == xs[0] && (xs + tail)[1..] == xs[1..] + tail;
      if xs[0] != common[0] {
        OnlyInIgnoresTail(xs[1..], tail, common);
      } else {
        if !IsSubseq(common[1..], xs[1..]) {
          SubseqDropHead(common, xs[1..]);
        }
        OnlyInIgnoresTail(xs[1..], tail, common[1..]);
      }
    }
  }

  /**
   * Index entries after the point where the last common title is matched
   * never reach the eBay-only list (and symmetrically for Shopify).
   */
  lemma EbayOnlyStopsAtLastCommon(ebayIndices: seq<string>, shopifyIndices: seq<string>, cut: nat)
    requires cut <= |ebayIndices|
    requires IsSubseq(Common(Prefixes(ebayIndices), Prefixes(shopifyIndices)), Prefixes(ebayIndices)[..cut])
    ensures var c := Common(Prefixes(ebayIndices), Prefixes(shopifyIndices));
      OnlyIn(Prefixes(ebayIndices), c) == OnlyIn(Prefixes(ebayIndices)[..cut], c)
  {
    var e := Prefixes(ebayIndices);
    assert e == e[..cut] + e[cut..];
    OnlyInIgnoresTail(e[..cut], e[cut..], Common(e, Prefixes(shopifyIndices)));
  }

  /**
   * With the corrected "only" lists, on strictly increasing title
   * sequences the common titles and each side's only titles partition that
   * side's titles, and a title is only on one side exactly when the other
   * side lacks it.
   */
  lemma CorrectedDiffPartitions(a: seq<string>, b: seq<string>)
    requires StrictlyIncreasing(a) && StrictlyIncreasing(b)
    ensures var c := Common(a, b);
      (forall x :: x in OnlyInCorrected(a, c) <==> x in a && x !in b) &&
      (forall x :: x in OnlyInCorrected(b, c) <==> x in b && x !in a) &&
      (forall x :: x in a <==> x in c || x in OnlyInCorrected(a, c)) &&
      (forall x :: x in b <==> x in c || x in OnlyInCorrected(b, c)) &&
      (forall x :: !(x in c && x in OnlyInCorrected(a, c))) &&
      (forall x :: !(x in c && x in OnlyInCorrected(b, c))) &&
      (forall x :: !(x in OnlyInCorrected(a, c) && x in OnlyInCorrected(b, c)))
  {
    CommonIsSortedIntersection(a, b);
  }

  // ---------------------------------------------------------------------
  // Concrete runs

  /**
   * The eBay index `Blue Hat:<id>`, `Red Shoe:<id>` against the Shopify
   * index `Blue Hat:<id>`, `Green Bag:<id>`, whatever the ids: as written,
   * the loops report no only-titles on either side, because both filtering
   * passes stop at the one common title; the corrected lists report
   * "Red Shoe" and "Green Bag".
   */
  lemma TailTitlesDropped(id1: string, id2: string, id3: string, id4: string)
    ensures var e := Prefixes(["Blue Hat" + ":" + id1, "Red Shoe" + ":" + id2]);
      var s := Prefixes(["Blue Hat" + ":" + id3, "Green Bag" + ":" + id4]);
      var c := Common(e, s);
      c == ["Blue Hat"] && OnlyIn(e, c) == [] && OnlyIn(s, c) == [] &&
      OnlyInCorrected(e, c) == ["Red Shoe"] && OnlyInCorrected(s, c) == ["Green Bag"]
  {
    TwoEntryTitles("Blue Hat", id1, "Red Shoe", id2);
    TwoEntryTitles("Blue Hat", id3, "Green Bag", id4);
    assert !Less("Red Shoe", "Green Bag");
    assert Common(["Blue Hat", "Red Shoe"], ["Blue Hat", "Green Bag"]) == ["Blue Hat"];
  }

  /** The titles of a two-member index whose titles hold no `:`. */
  lemma TwoEntryTitles(t1: string, id1: string, t2: string, id2: string)
    requires ':' !in t1 && ':' !in t2
    ensures Prefixes([t1 + ":" + id1, t2 + ":" + id2]) == [t1, t2]
  {
    TitlePrefixOfEntry(t1, id1);
    TitlePrefixOfEntry(t2, id2);
  }

  /**
   * A common title listed twice on one side, matched once: while a later
   * common title is still to be matched, the second copy lands in that
   * side's only list although the other side has it; when it was the last
   * common title, the pass has stopped and the copy is not reported.
   */
  lemma DuplicateCommonTitleReportedOnly(t: string, u: string, rest: seq<string>, cs: seq<string>)
    requires t != u
    ensures OnlyIn([t, t] + rest, [t, u] + cs) == [t] + OnlyIn(rest, [u] + cs)
    ensures OnlyIn([t, t] + rest, [t]) == []
  {
    assert ([t, t] + rest)[1..] == [t] + rest;
    assert ([t] + rest)[1..] == rest && ([t, u] + cs)[1..] == [u] + cs;
    assert [t][1..] == [];
  }
}

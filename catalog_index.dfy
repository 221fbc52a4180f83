/**
 * What saving a fetched listing does to the store: the product record is
 * written under `getProductName(platform, owner, id)` and the member
 * `escapeTitle(title) + ':' + id` is added to the platform's title index, a
 * sorted set. `escapeTitle` and `getProductName` are passed in as functions.
 */
module CatalogIndex {
  import opened JsText
  import opened TitleDiff

  /** One account's product records, by key, and its title index, by member. */
  datatype Catalog = Catalog(records: map<string, string>, index: set<string>)

  /** A fetched listing: native id, title, serialised product record. */
  datatype Listing = Listing(id: string, title: string, record: string)

  /**
   * The title-index member of a listing: the escaped title, `:`, the id. The
   * title and the id can be cut back out of it at the separator.
   */
  function IndexEntry(safeTitle: string, id: string): (entry: string)
    ensures |entry| == |safeTitle| + 1 + |id|
    ensures entry[..|safeTitle|] == safeTitle && entry[|safeTitle|] == ':'
    ensures entry[|safeTitle| + 1..] == id
  {
    safeTitle + ":" + id
  }

  /**
   * Saving one listing: its record replaces whatever was stored under its
   * key, its index member is present afterwards, and nothing else changes.
   */
  function SaveListing(c: Catalog, escape: string -> string, productName: string -> string, l: Listing)
    : (r: Catalog)
    ensures IndexEntry(escape(l.title), l.id) in r.index
    ensures c.index <= r.index && r.index - c.index <= {IndexEntry(escape(l.title), l.id)}
    ensures productName(l.id) in r.records && r.records[productName(l.id)] == l.record
    ensures forall k :: k != productName(l.id) ==>
      (k in r.records <==> k in c.records) && (k in c.records ==> r.records[k] == c.records[k])
  {
    Catalog(c.records[productName(l.id) := l.record], c.index + {IndexEntry(escape(l.title), l.id)})
  }

  /** Saving the same listing twice leaves the store as saving it once. */
  lemma SaveListingIdempotent(c: Catalog, escape: string -> string, productName: string -> string, l: Listing)
    ensures SaveListing(SaveListing(c, escape, productName, l), escape, productName, l)
      == SaveListing(c, escape, productName, l)
  {
  }

  /**
   * The index only grows: a listing saved again under a new title keeps its
   * old member next to the new one.
   */
  lemma RetitledListingKeepsOldEntry(c: Catalog, escape: string -> string, productName: string -> string,
                                     l: Listing, newTitle: string)
    ensures var l' := Listing(l.id, newTitle, l.record);
      var r := SaveListing(SaveListing(c, escape, productName, l), escape, productName, l');
      IndexEntry(escape(l.title), l.id) in r.index && IndexEntry(escape(newTitle), l.id) in r.index
  {
  }

  /** The index members of a page of listings. */
  function PageEntries(escape: string -> string, page: seq<Listing>): set<string>
  {
    set l | l in page :: IndexEntry(escape(l.title), l.id)
  }

  /** No listing after the `i`-th of the page is saved under the same key. */
  predicate LastWithKey(productName: string -> string, page: seq<Listing>, i: nat)
    requires i < |page|
  {
    forall j :: i < j < |page| ==> productName(page[j].id) != productName(page[i].id)
  }

  /**
   * Saving every listing of a fetched page, in page order: the index gains
   * exactly the members of the page's listings, and the records gain exactly
   * their keys (`SavePageKeepsOtherRecords` and `SavePageStoresLastRecord` give their
   * values).
   */
  function SavePage(c: Catalog, escape: string -> string, productName: string -> string, page: seq<Listing>)
    : (r: Catalog)
    ensures r.index == c.index + PageEntries(escape, page)
    ensures r.records.Keys == c.records.Keys + set l | l in page :: productName(l.id)
    decreases |page|
  {
    if page == [] then c
    else
      var r := SavePage(SaveListing(c, escape, productName, page[0]), escape, productName, page[1..]);
      PageSplitsAtHead(escape, productName, page);
      r
  }

  /** A page's members and keys are its first listing's plus the rest's. */
  lemma PageSplitsAtHead(escape: string -> string, productName: string -> string, page: seq<Listing>)
    requires page != []
    ensures PageEntries(escape, page)
      == {IndexEntry(escape(page[0].title), page[0].id)} + PageEntries(escape, page[1..])
    ensures (set l | l in page :: productName(l.id))
      == {productName(page[0].id)} + set l | l in page[1..] :: productName(l.id)
  {
    assert forall l :: l in page <==> l == page[0] || l in page[1..];
  }

  /** Saving a page leaves every record under a key none of its listings has. */
  lemma {:induction false} SavePageKeepsOtherRecords(c: Catalog, escape: string -> string,
                                                     productName: string -> string, page: seq<Listing>, k: string)
    requires k in c.records && forall l :: l in page ==> productName(l.id) != k
    ensures SavePage(c, escape, productName, page).records[k] == c.records[k]
    decreases |page|
  {
    if page != [] {
      var c' := SaveListing(c, escape, productName, page[0]);
      assert page[0] in page && forall l :: l in page[1..] ==> l in page;
      SavePageKeepsOtherRecords(c', escape, productName, page[1..], k);
    }
  }

  /**
   * After a page is saved, each of its keys holds the record of the last
   * listing saved under it.
   */
  lemma {:induction false} SavePageStoresLastRecord(c: Catalog, escape: string -> string,
                                                    productName: string -> string, page: seq<Listing>, i: nat)
    requires i < |page| && LastWithKey(productName, page, i)
    ensures productName(page[i].id) in SavePage(c, escape, productName, page).records
    ensures SavePage(c, escape, productName, page).records[productName(page[i].id)] == page[i].record
    decreases |page|
  {
    var c' := SaveListing(c, escape, productName, page[0]);
    if i == 0 {
      forall l | l in page[1..] ensures productName(l.id) != productName(page[0].id) {
        var j :| 0 <= j < |page[1..]| && page[1..][j] == l;
        assert page[j + 1] == l;
      }
      SavePageKeepsOtherRecords(c', escape, productName, page[1..], productName(page[0].id));
    } else {
      assert page[1..][i - 1] == page[i];
      assert LastWithKey(productName, page[1..], i - 1);
      SavePageStoresLastRecord(c', escape, productName, page[1..], i - 1);
    }
  }

  /**
   * After a page is saved, every listing of it has its index member and a
   * record under its key.
   */
  lemma SavedPageIsIndexed(c: Catalog, escape: string -> string, productName: string -> string,
                             page: seq<Listing>, l: Listing)
    requires l in page
    ensures IndexEntry(escape(l.title), l.id) in SavePage(c, escape, productName, page).index
    ensures productName(l.id) in SavePage(c, escape, productName, page).records
  {
  }

  /**
   * A title index built from listings whose escaped titles hold no `:`
   * presents exactly those titles, in index order, to the diff.
   */
  lemma IndexTitlesAreEscapedTitles(titles: seq<string>, ids: seq<string>, entries: seq<string>)
    requires |titles| == |ids| == |entries|
    requires forall k :: 0 <= k < |entries| ==> entries[k] == IndexEntry(titles[k], ids[k])
    requires forall k :: 0 <= k < |titles| ==> ':' !in titles[k]
    ensures Prefixes(entries) == titles
  {
    forall k | 0 <= k < |entries| ensures Prefixes(entries)[k] == titles[k] {
      TitlePrefixOfEntry(titles[k], ids[k]);
    }
  }

  // ---------------------------------------------------------------------
  // The order the store returns an index in

  /**
   * The store orders a title index by whole members, not by titles: a space
   * sorts below `:`, so `Red Shoe 2:<id>` comes before `Red Shoe:<id>`
   * although "Red Shoe" sorts before "Red Shoe 2". Merged against a Shopify
   * index holding `Red Shoe:<id>`, the eBay index in store order yields no
   * common title, though "Red Shoe" is on both sides.
   */
  lemma StoreOrderHidesCommonTitle(id1: string, id2: string, id3: string)
    ensures var e := [IndexEntry("Red Shoe 2", id1), IndexEntry("Red Shoe", id2)];
      var s := [IndexEntry("Red Shoe", id3)];
      StrictlyIncreasing(e) &&
      Prefixes(e) == ["Red Shoe 2", "Red Shoe"] && Prefixes(s) == ["Red Shoe"] &&
      Common(Prefixes(e), Prefixes(s)) == []
  {
    SpaceSortsBelowSeparator(id1, id2);
    TwoEntryTitles("Red Shoe 2", id1, "Red Shoe", id2);
    TitlePrefixOfEntry("Red Shoe", id3);
    assert Prefixes([IndexEntry("Red Shoe", id3)])[0] == "Red Shoe";
    assert "Red Shoe 2" == "Red Shoe" + " 2";
    assert Less("Red Shoe", "Red Shoe 2");
    LessAsymmetric("Red Shoe", "Red Shoe 2");
  }

  /** In the store, `Red Shoe 2:<id>` comes before `Red Shoe:<id>`. */
  lemma SpaceSortsBelowSeparator(id1: string, id2: string)
    ensures Less(IndexEntry("Red Shoe 2", id1), IndexEntry("Red Shoe", id2))
  {
    assert IndexEntry("Red Shoe 2", id1) == "Red Shoe" + (" 2:" + id1);
    assert IndexEntry("Red Shoe", id2) == "Red Shoe" + (":" + id2);
    assert Less(" 2:" + id1, ":" + id2) by {
      assert (" 2:" + id1)[0] == ' ' && (":" + id2)[0] == ':';
    }
    LessAfterCommonPrefix("Red Shoe", " 2:" + id1, ":" + id2);
  }

  /**
   * When every escaped title sorts above `:` throughout and each title has
   * one member, the store's order of the members is the order of their
   * titles, so the diff sees strictly increasing titles and the merge finds
   * every common title (`CommonIsSortedIntersection`).
   */
  lemma EscapedIndexIsTitleOrdered(titles: seq<string>, ids: seq<string>, entries: seq<string>)
    requires |titles| == |ids| == |entries|
    requires forall k :: 0 <= k < |entries| ==> entries[k] == IndexEntry(titles[k], ids[k])
    requires forall k :: 0 <= k < |titles| ==> SortsAboveSeparator(titles[k])
    requires forall p, q :: 0 <= p < q < |titles| ==> titles[p] != titles[q]
    requires StrictlyIncreasing(entries)
    ensures Prefixes(entries) == titles
    ensures StrictlyIncreasing(Prefixes(entries))
  {
    forall k | 0 <= k < |titles| ensures ':' !in titles[k] {
      forall j | 0 <= j < |titles[k]| ensures titles[k][j] != ':' {
        assert CharBefore(':', titles[k][j]);
      }
    }
    IndexTitlesAreEscapedTitles(titles, ids, entries);
    forall p, q | 0 <= p < q < |titles| ensures Less(titles[p], titles[q]) {
      EntryOrderIsTitleOrder(titles[p], ids[p], titles[q], ids[q]);
    }
  }
}

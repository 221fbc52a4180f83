/**
 * `getAllProductKeys`: repeated `SCAN` calls over the key space, each
 * continuing from the cursor the previous reply returned, collecting the
 * keys into a `Set` until the store returns cursor `'0'`, or after the first
 * reply when a limit is given. The store's replies are an input: the n-th
 * element is what the n-th `SCAN` call settles with.
 */
module KeyScan {
  import opened Wrappers
  import opened JsText

  /** A `SCAN` reply: the next cursor and the keys of this round. */
  datatype ScanReply = ScanReply(cursor: string, keys: seq<string>)

  /** The arguments of one `SCAN cursor MATCH pattern COUNT count` call. */
  datatype ScanCall = ScanCall(cursor: string, pattern: string, count: string)

  /**
   * How the returned promise ends: resolved with the keys, rejected with the
   * store's error, or still waiting because the replies given ran out first.
   */
  datatype ScanOutcome = Resolved(keys: seq<string>) | Rejected(error: string) | Pending

  /** JavaScript truthiness of the `limit` query parameter (a string or absent). */
  predicate Truthy(limit: Option<string>)
  {
    limit.Some? && limit.value != ""
  }

  /**
   * `products:${channel}:${id}:*`: every key that starts with the owner's
   * product prefix `products:${channel}:${id}:`.
   */
  function KeyPattern(channel: string, id: string): (r: string)
    ensures |r| == |channel| + |id| + 12
    ensures r[..|r| - 1] == "products:" + channel + ":" + id + ":" && r[|r| - 1] == '*'
  {
    "products:" + channel + ":" + id + ":*"
  }

  /**
   * Two owners whose channel and id hold no `:` scan with the same pattern
   * only if they are the same owner.
   */
  lemma KeyPatternsSeparateOwners(channel: string, id: string, channel': string, id': string)
    requires ':' !in channel && ':' !in id && ':' !in channel' && ':' !in id'
    requires KeyPattern(channel, id) == KeyPattern(channel', id')
    ensures channel == channel' && id == id'
  {
    var p := KeyPattern(channel, id);
    assert p[9..] == channel + ":" + (id + ":*") == channel' + ":" + (id' + ":*");
    TitlePrefixOfEntry(channel, id + ":*");
    TitlePrefixOfEntry(channel', id' + ":*");
    assert p[9 + |channel| + 1..] == id + ":*" == id' + ":*";
    assert id == (id + ":*")[..|id|] && id' == (id' + ":*")[..|id'|];
  }

  /** `(limit || 10000).toString()`: the limit when it is truthy, 10000 otherwise. */
  function CountArgument(limit: Option<string>): (r: string)
    ensures Truthy(limit) ==> r == limit.value
    ensures !Truthy(limit) ==> r == "10000"
  {
    if Truthy(limit) then limit.value else "10000"
  }

  predicate NoDuplicates(s: seq<string>)
  {
    forall p, q :: 0 <= p < q < |s| ==> s[p] != s[q]
  }

  /** The keys of the first `n` replies, all of which succeeded. */
  ghost predicate InReplies(key: string, replies: seq<Result<ScanReply, string>>, n: nat)
    requires n <= |replies|
  {
    exists m :: 0 <= m < n && replies[m].Ok? && key in replies[m].value.keys
  }

  method GetAllProductKeys(channel: string, id: string, limit: Option<string>,
                           replies: seq<Result<ScanReply, string>>)
    returns (outcome: ScanOutcome, calls: seq<ScanCall>)
    ensures |calls| <= |replies|
    // the scan goes on only past successful replies that carry a cursor other than '0', and only without a limit
    ensures forall n :: 0 <= n < |calls| - 1 ==>
      replies[n].Ok? && replies[n].value.cursor != "0" && !Truthy(limit)
    // each call continues from the cursor of the reply before it
    ensures forall n :: 0 <= n < |calls| ==>
      calls[n] == ScanCall(if n == 0 then "0" else replies[n - 1].value.cursor,
                           KeyPattern(channel, id), CountArgument(limit))
    ensures outcome.Pending? <==> (|calls| == |replies| &&
      (|calls| == 0 || (replies[|calls| - 1].Ok? && replies[|calls| - 1].value.cursor != "0" && !Truthy(limit))))
    ensures outcome.Rejected? ==> |calls| > 0 && replies[|calls| - 1] == Err(outcome.error)
    ensures outcome.Resolved? ==> (|calls| > 0 && replies[|calls| - 1].Ok? &&
      (replies[|calls| - 1].value.cursor == "0" || Truthy(limit)))
    ensures Truthy(limit) && |replies| > 0 ==> |calls| == 1
    // the result is the set of keys seen, each once
    ensures outcome.Resolved? ==> NoDuplicates(outcome.keys)
    ensures outcome.Resolved? ==> forall key :: key in outcome.keys <==> InReplies(key, replies, |calls|)
  {
    var cursor := "0";
    var results: seq<string> := [];
    var count := CountArgument(limit);
    calls := [];
    outcome := Pending;
    var done := false;
    while !done && |calls| < |replies|
      invariant |calls| <= |replies|
      invariant forall n :: 0 <= n < |calls| - (if done then 1 else 0) ==>
        replies[n].Ok? && replies[n].value.cursor != "0" && !Truthy(limit)
      invariant forall n :: 0 <= n < |calls| ==>
        calls[n] == ScanCall(if n == 0 then "0" else replies[n - 1].value.cursor, KeyPattern(channel, id), count)
      invariant Truthy(limit) && |calls| > 0 ==> done && |calls| == 1
      invariant |calls| > 0 && !done ==> replies[|calls| - 1].Ok? && cursor == replies[|calls| - 1].value.cursor
      invariant |calls| == 0 ==> cursor == "0" && !done
      invariant done <==> !outcome.Pending?
      invariant outcome.Rejected? ==> |calls| > 0 && replies[|calls| - 1] == Err(outcome.error)
      invariant outcome.Resolved? ==> (|calls| > 0 && replies[|calls| - 1].Ok? &&
        (replies[|calls| - 1].value.cursor == "0" || Truthy(limit)))
      invariant NoDuplicates(results)
      invariant forall key :: key in results <==> InReplies(key, replies, |calls|)
      invariant outcome.Resolved? ==> outcome.keys == results
    {
      calls := calls + [ScanCall(cursor, KeyPattern(channel, id), count)];
      match replies[|calls| - 1]
      case Err(e) =>
        outcome := Rejected(e);
        done := true;
        assert forall key :: InReplies(key, replies, |calls|) <==> InReplies(key, replies, |calls| - 1);
      case Ok(reply) =>
        cursor := reply.cursor;
        results := AddAll(results, reply.keys);
        forall key ensures key in results <==> InReplies(key, replies, |calls|) {
          if key in reply.keys {
            assert InReplies(key, replies, |calls|);
          }
        }
        if cursor == "0" || Truthy(limit) {
          outcome := Resolved(results);
          done := true;
        }
    }
  }

  /** `keys.forEach(key => results.add(key))` on a `Set`, kept in insertion order. */
  method AddAll(results: seq<string>, keys: seq<string>) returns (r: seq<string>)
    requires NoDuplicates(results)
    ensures NoDuplicates(r)
    ensures results <= r
    ensures forall key :: key in r <==> key in results || key in keys
  {
    r := results;
    var i := 0;
    while i < |keys|
      invariant 0 <= i <= |keys|
      invariant NoDuplicates(r)
      invariant results <= r
      invariant forall key :: key in r <==> key in results || key in keys[..i]
    {
      if keys[i] !in r {
        r := r + [keys[i]];
      }
      i := i + 1;
    }
    assert keys[..i] == keys;
  }
}

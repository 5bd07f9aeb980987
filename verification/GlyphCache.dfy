/** The cache of rendered glyph runs: a map and a recency list whose entries point at each other. */
module GlyphCache {
  import opened Cells

  datatype GlyphRunKey = GlyphRunKey(
    text: Text, foreground: nat, background: nat, fontIdentity: nat, cellCount: nat, attributes: nat,
    cellWidth: nat, cellHeight: nat, dpiX: int, dpiY: int)

  /** `image` stands for the pixels. */
  datatype Bitmap = Bitmap(ok: bool, width: nat, height: nat, depth: int, image: Text)

  function BitmapBytes(bitmap: Bitmap): nat {
    if !bitmap.ok then 0
    else bitmap.width * bitmap.height * (((if bitmap.depth < 1 then 1 else bitmap.depth) + 7) / 8)
  }

  function ColorKey(color: Rgb): nat {
    (color.r as nat) * 0x10000 + (color.g as nat) * 0x100 + color.b as nat
  }

  lemma ColorKeyTellsColorsApart(a: Rgb, b: Rgb)
    ensures ColorKey(a) == ColorKey(b) <==> a == b
  {
  }

  /** Drawing the text of a key is a function of the key. */
  datatype GlyphConfig = GlyphConfig(render: GlyphRunKey -> Bitmap, maxEntries: nat, maxBytes: nat) {
    function Bytes(key: GlyphRunKey): nat { BitmapBytes(render(key)) }

    predicate Cacheable(key: GlyphRunKey) { render(key).ok && maxEntries > 0 && Bytes(key) <= maxBytes }
  }

  // ---- The recency list, by its keys ----

  function TotalBytes(config: GlyphConfig, keys: seq<GlyphRunKey>): nat {
    if keys == [] then 0 else TotalBytes(config, keys[..|keys| - 1]) + config.Bytes(keys[|keys| - 1])
  }

  function Without(keys: seq<GlyphRunKey>, key: GlyphRunKey): seq<GlyphRunKey> {
    if keys == [] then [] else if keys[0] == key then keys[1..] else [keys[0]] + Without(keys[1..], key)
  }

  predicate Fits(config: GlyphConfig, keys: seq<GlyphRunKey>, incoming: nat) {
    |keys| < config.maxEntries && TotalBytes(config, keys) + incoming <= config.maxBytes
  }

  /** What eviction from the back leaves so that one more entry of `incoming` bytes fits. */
  function Trimmed(config: GlyphConfig, keys: seq<GlyphRunKey>, incoming: nat): seq<GlyphRunKey> {
    if keys == [] || Fits(config, keys, incoming) then keys
    else Trimmed(config, keys[..|keys| - 1], incoming)
  }

  function AfterLookup(config: GlyphConfig, keys: seq<GlyphRunKey>, key: GlyphRunKey): seq<GlyphRunKey> {
    if key in keys then [key] + Without(keys, key)
    else if !config.Cacheable(key) then keys
    else [key] + Trimmed(config, keys, config.Bytes(key))
  }

  /** The keys in the list after the lookups of `history`, most recent first. */
  function AfterLookups(config: GlyphConfig, history: seq<GlyphRunKey>): seq<GlyphRunKey> {
    if history == [] then []
    else AfterLookup(config, AfterLookups(config, history[..|history| - 1]), history[|history| - 1])
  }

  /** All cacheable keys of `history`, most recently used first, each once. */
  function MostRecentFirst(config: GlyphConfig, history: seq<GlyphRunKey>): seq<GlyphRunKey> {
    if history == [] then [] else
      var key := history[|history| - 1];
      var before := MostRecentFirst(config, history[..|history| - 1]);
      if config.Cacheable(key) then [key] + Without(before, key) else before
  }

  ghost predicate DistinctKeys(keys: seq<GlyphRunKey>) {
    forall i, j | 0 <= i < j < |keys| :: keys[i] != keys[j]
  }

  lemma {:induction false} WithoutAt(keys: seq<GlyphRunKey>, i: nat)
    requires DistinctKeys(keys) && i < |keys|
    ensures Without(keys, keys[i]) == keys[..i] + keys[i + 1..]
  {
    if i > 0 {
      WithoutAt(keys[1..], i - 1);
      assert keys[1..][..i - 1] == keys[1..i];
    }
  }

  lemma {:induction false} WithoutAbsent(keys: seq<GlyphRunKey>, key: GlyphRunKey)
    requires key !in keys
    ensures Without(keys, key) == keys
  {
    if keys != [] {
      WithoutAbsent(keys[1..], key);
    }
  }

  lemma {:induction false} WithoutMembers(keys: seq<GlyphRunKey>, key: GlyphRunKey)
    requires DistinctKeys(keys)
    ensures DistinctKeys(Without(keys, key))
    ensures forall other :: other in Without(keys, key) <==> other in keys && other != key
  {
    if keys != [] && keys[0] != key {
      WithoutMembers(keys[1..], key);
      assert forall other :: other in keys <==> other == keys[0] || other in keys[1..];
      assert forall other :: other in Without(keys, key) <==> other == keys[0] || other in Without(keys[1..], key);
      assert keys[0] !in Without(keys[1..], key);
    } else if keys != [] {
      assert forall other :: other in keys <==> other == keys[0] || other in keys[1..];
    }
  }

  lemma {:induction false} TotalOfConcat(config: GlyphConfig, a: seq<GlyphRunKey>, b: seq<GlyphRunKey>)
    ensures TotalBytes(config, a + b) == TotalBytes(config, a) + TotalBytes(config, b)
    decreases |b|
  {
    if b == [] {
      assert a + b == a;
    } else {
      TotalOfConcat(config, a, b[..|b| - 1]);
      assert (a + b)[..|a + b| - 1] == a + b[..|b| - 1];
    }
  }

  lemma MoveToFrontKeepsTotal(config: GlyphConfig, keys: seq<GlyphRunKey>, i: nat)
    requires i < |keys|
    ensures TotalBytes(config, [keys[i]] + (keys[..i] + keys[i + 1..])) == TotalBytes(config, keys)
  {
    assert keys == keys[..i] + ([keys[i]] + keys[i + 1..]);
    TotalOfConcat(config, keys[..i], [keys[i]] + keys[i + 1..]);
    TotalOfConcat(config, [keys[i]], keys[i + 1..]);
    TotalOfConcat(config, keys[..i], keys[i + 1..]);
    TotalOfConcat(config, [keys[i]], keys[..i] + keys[i + 1..]);
  }

  /** The bytes of a bitmap that could be created: for each pixel the fewest whole bytes that hold its bits. */
  lemma BitmapBytesHoldAllBits(bitmap: Bitmap, perPixel: nat)
    ensures !bitmap.ok ==> BitmapBytes(bitmap) == 0
    ensures var bits := if bitmap.depth < 1 then 1 else bitmap.depth;
            bitmap.ok && (perPixel - 1) * 8 < bits <= perPixel * 8 ==>
              BitmapBytes(bitmap) == bitmap.width * bitmap.height * perPixel
  {
    var bits := if bitmap.depth < 1 then 1 else bitmap.depth;
    if (perPixel - 1) * 8 < bits <= perPixel * 8 {
      assert (bits + 7) / 8 == perPixel;
    }
  }

  /** Eviction drops the least recent keys, and stops as soon as the new entry fits. */
  lemma {:induction false} TrimmedIsTheLongestThatFits(
      config: GlyphConfig, keys: seq<GlyphRunKey>, incoming: nat, n: nat)
    requires config.maxEntries > 0 && incoming <= config.maxBytes && n <= |keys|
    ensures var kept := Trimmed(config, keys, incoming);
            && kept <= keys
            && |kept| < config.maxEntries && TotalBytes(config, kept) + incoming <= config.maxBytes
    ensures n < config.maxEntries && TotalBytes(config, keys[..n]) + incoming <= config.maxBytes ==>
      n <= |Trimmed(config, keys, incoming)|
    decreases |keys|
  {
    if keys != [] && !Fits(config, keys, incoming) {
      if n == |keys| {
        assert keys[..n] == keys;
        TrimmedIsTheLongestThatFits(config, keys[..|keys| - 1], incoming, 0);
      } else {
        TrimmedIsTheLongestThatFits(config, keys[..|keys| - 1], incoming, n);
        assert keys[..|keys| - 1][..n] == keys[..n];
      }
    }
  }

  lemma {:induction false} MostRecentMembers(config: GlyphConfig, history: seq<GlyphRunKey>)
    ensures DistinctKeys(MostRecentFirst(config, history))
    ensures forall key :: key in MostRecentFirst(config, history) <==> key in history && config.Cacheable(key)
  {
    if history != [] {
      var last := history[|history| - 1];
      var front := history[..|history| - 1];
      MostRecentMembers(config, front);
      WithoutMembers(MostRecentFirst(config, front), last);
      assert forall key :: key in history <==> key in front || key == last;
    }
  }

  lemma PrefixWithoutMember(keys: seq<GlyphRunKey>, all: seq<GlyphRunKey>, key: GlyphRunKey)
    requires DistinctKeys(all) && keys <= all && key in keys
    ensures Without(keys, key) <= Without(all, key)
  {
    var i :| 0 <= i < |keys| && keys[i] == key;
    WithoutAt(keys, i);
    WithoutAt(all, i);
    assert all[..i] == keys[..i];
    assert keys[i + 1..] <= all[i + 1..];
  }

  lemma PrefixWithoutOther(keys: seq<GlyphRunKey>, all: seq<GlyphRunKey>, key: GlyphRunKey)
    requires DistinctKeys(all) && keys <= all && key !in keys
    ensures keys <= Without(all, key)
  {
    if key in all {
      var i :| 0 <= i < |all| && all[i] == key;
      WithoutAt(all, i);
      assert i >= |keys|;
      assert all[..i] + all[i + 1..] == keys + all[|keys|..i] + all[i + 1..];
    } else {
      WithoutAbsent(all, key);
    }
  }

  /** What holds of the list after any lookups: it is a prefix of the most-recent-first list of
      cacheable keys, within both bounds. */
  ghost predicate RecencyPrefix(config: GlyphConfig, keys: seq<GlyphRunKey>, all: seq<GlyphRunKey>) {
    && keys <= all && |keys| <= config.maxEntries && TotalBytes(config, keys) <= config.maxBytes
  }

  lemma HitKeepsPrefix(config: GlyphConfig, keys: seq<GlyphRunKey>, all: seq<GlyphRunKey>, key: GlyphRunKey)
    requires RecencyPrefix(config, keys, all) && DistinctKeys(all) && key in keys
    ensures RecencyPrefix(config, [key] + Without(keys, key), [key] + Without(all, key))
  {
    PrefixWithoutMember(keys, all, key);
    var i :| 0 <= i < |keys| && keys[i] == key;
    WithoutAt(keys, i);
    MoveToFrontKeepsTotal(config, keys, i);
  }

  lemma MissKeepsPrefix(config: GlyphConfig, keys: seq<GlyphRunKey>, all: seq<GlyphRunKey>, key: GlyphRunKey)
    requires RecencyPrefix(config, keys, all) && DistinctKeys(all) && key !in keys && config.Cacheable(key)
    ensures RecencyPrefix(config, [key] + Trimmed(config, keys, config.Bytes(key)), [key] + Without(all, key))
  {
    var kept := Trimmed(config, keys, config.Bytes(key));
    TrimmedIsTheLongestThatFits(config, keys, config.Bytes(key), 0);
    PrefixWithoutOther(keys, all, key);
    TotalOfConcat(config, [key], kept);
    assert kept <= Without(all, key);
  }

  /** The list is always a prefix of the most-recent-first list, within both bounds. */
  lemma {:induction false} ListIsRecencyPrefix(config: GlyphConfig, history: seq<GlyphRunKey>)
    ensures RecencyPrefix(config, AfterLookups(config, history), MostRecentFirst(config, history))
    ensures forall key | key in AfterLookups(config, history) :: config.Cacheable(key)
  {
    if history != [] {
      var key, front := history[|history| - 1], history[..|history| - 1];
      ListIsRecencyPrefix(config, front);
      var keys, all := AfterLookups(config, front), MostRecentFirst(config, front);
      MostRecentMembers(config, front);
      MostRecentMembers(config, history);
      if key in keys {
        HitKeepsPrefix(config, keys, all, key);
      } else if config.Cacheable(key) {
        MissKeepsPrefix(config, keys, all, key);
      }
      PrefixMembers(config, AfterLookups(config, history), MostRecentFirst(config, history));
    }
  }

  lemma PrefixMembers(config: GlyphConfig, keys: seq<GlyphRunKey>, all: seq<GlyphRunKey>)
    requires RecencyPrefix(config, keys, all)
    ensures forall key | key in keys :: key in all
  {
    assert keys == all[..|keys|];
  }

  /** The bitmap was created, the cache may hold entries, and it is not larger than the whole cache. */
  ghost predicate CanHold(config: GlyphConfig, key: GlyphRunKey) {
    && config.render(key).ok && config.maxEntries > 0 && BitmapBytes(config.render(key)) <= config.maxBytes
  }

  /** A lookup, on the configured numbers. `keys` and `after` are the keys in the list, most recent first. */
  ghost predicate LooksUp(config: GlyphConfig, keys: seq<GlyphRunKey>, after: seq<GlyphRunKey>, key: GlyphRunKey) {
    var size := BitmapBytes(config.render(key));
    // A hit moves the key to the front; the others keep their order.
    && (key in keys ==>
          exists i :: 0 <= i < |keys| && keys[i] == key && after == [key] + (keys[..i] + keys[i + 1..]))
    // A miss that cannot be cached leaves the list alone.
    && (key !in keys && !CanHold(config, key) ==> after == keys)
    // Any other miss comes first, before as many of the others as there is room for.
    && (key !in keys && CanHold(config, key) ==>
          && after != [] && after[0] == key && after[1..] <= keys
          && forall n | 0 <= n <= |keys| && n < config.maxEntries
                        && TotalBytes(config, keys[..n]) + size <= config.maxBytes :: n < |after|)
  }

  lemma HitLooksUp(config: GlyphConfig, keys: seq<GlyphRunKey>, key: GlyphRunKey)
    requires DistinctKeys(keys) && key in keys
    ensures LooksUp(config, keys, AfterLookup(config, keys, key), key) && |AfterLookup(config, keys, key)| == |keys|
  {
    hide TotalBytes, CanHold, BitmapBytes;
    var i :| 0 <= i < |keys| && keys[i] == key;
    WithoutAt(keys, i);
  }

  lemma MissLooksUp(config: GlyphConfig, keys: seq<GlyphRunKey>, key: GlyphRunKey)
    requires key !in keys && config.Cacheable(key)
    ensures LooksUp(config, keys, AfterLookup(config, keys, key), key)
    ensures |AfterLookup(config, keys, key)| == |keys| + 1 - Evicted(config, keys, key)
  {
    hide BitmapBytes;
    var size, after := config.Bytes(key), AfterLookup(config, keys, key);
    TrimmedIsTheLongestThatFits(config, keys, size, 0);
    assert after[1..] == Trimmed(config, keys, size);
    forall n | 0 <= n <= |keys| && n < config.maxEntries && TotalBytes(config, keys[..n]) + size <= config.maxBytes
      ensures n < |after|
    {
      TrimmedIsTheLongestThatFits(config, keys, size, n);
    }
  }

  lemma AfterLookupLooksUp(config: GlyphConfig, keys: seq<GlyphRunKey>, key: GlyphRunKey)
    requires DistinctKeys(keys)
    ensures LooksUp(config, keys, AfterLookup(config, keys, key), key)
    ensures CanHold(config, key) <==> config.Cacheable(key)
    ensures |AfterLookup(config, keys, key)|
         == |keys| + (if key !in keys && config.Cacheable(key) then 1 - Evicted(config, keys, key) else 0)
  {
    hide BitmapBytes, Evicted, TotalBytes, DistinctKeys;
    if key in keys {
      HitLooksUp(config, keys, key);
    } else if config.Cacheable(key) {
      MissLooksUp(config, keys, key);
    }
  }

  /** With room for one more, nothing is evicted. */
  lemma RoomForAll(config: GlyphConfig, keys: seq<GlyphRunKey>, after: seq<GlyphRunKey>, key: GlyphRunKey)
    requires LooksUp(config, keys, after, key) && key !in keys && CanHold(config, key)
    requires |keys| < config.maxEntries
    requires TotalBytes(config, keys) + BitmapBytes(config.render(key)) <= config.maxBytes
    ensures after == [key] + keys
  {
    assert keys[..|keys|] == keys;
    assert after == [after[0]] + after[1..];
  }

  /** How recently a key was looked up: 0 for never, higher for later. */
  ghost function LastUse(history: seq<GlyphRunKey>, key: GlyphRunKey): nat {
    if history == [] then 0
    else if history[|history| - 1] == key then |history|
    else LastUse(history[..|history| - 1], key)
  }

  ghost predicate InOrderOfUse(history: seq<GlyphRunKey>, keys: seq<GlyphRunKey>) {
    forall i, j | 0 <= i < j < |keys| :: LastUse(history, keys[i]) > LastUse(history, keys[j])
  }

  /** The most-recent-first list is in the order of last use. */
  lemma {:induction false} MostRecentOrder(config: GlyphConfig, history: seq<GlyphRunKey>)
    ensures InOrderOfUse(history, MostRecentFirst(config, history))
  {
    if history != [] {
      var key, front := history[|history| - 1], history[..|history| - 1];
      MostRecentOrder(config, front);
      MostRecentMembers(config, front);
      var before := MostRecentFirst(config, front);
      if config.Cacheable(key) {
        OthersKeepOrder(before, key, front);
        WithoutMembers(before, key);
        UsedLast(history, Without(before, key));
      } else {
        OthersUseKept(history, before);
      }
    }
  }

  lemma {:induction false} LastUseInBounds(history: seq<GlyphRunKey>, key: GlyphRunKey)
    ensures LastUse(history, key) <= |history|
  {
    if history != [] {
      LastUseInBounds(history[..|history| - 1], key);
    }
  }

  /** One more lookup, of a key that is not among `keys`. */
  lemma OthersUseKept(history: seq<GlyphRunKey>, keys: seq<GlyphRunKey>)
    requires history != [] && history[|history| - 1] !in keys && InOrderOfUse(history[..|history| - 1], keys)
    ensures InOrderOfUse(history, keys)
  {
    forall i | 0 <= i < |keys| ensures LastUse(history, keys[i]) == LastUse(history[..|history| - 1], keys[i]) {}
  }

  lemma UsedLast(history: seq<GlyphRunKey>, others: seq<GlyphRunKey>)
    requires history != [] && history[|history| - 1] !in others && InOrderOfUse(history[..|history| - 1], others)
    ensures InOrderOfUse(history, [history[|history| - 1]] + others)
  {
    var keys := [history[|history| - 1]] + others;
    OthersUseKept(history, others);
    forall i, j | 0 <= i < j < |keys| ensures LastUse(history, keys[i]) > LastUse(history, keys[j]) {
      assert keys[j] == others[j - 1];
      if i > 0 {
        assert keys[i] == others[i - 1];
      } else {
        LastUseInBounds(history[..|history| - 1], keys[j]);
      }
    }
  }

  lemma OthersKeepOrder(keys: seq<GlyphRunKey>, key: GlyphRunKey, history: seq<GlyphRunKey>)
    requires DistinctKeys(keys) && InOrderOfUse(history, keys)
    ensures InOrderOfUse(history, Without(keys, key))
  {
    if key in keys {
      var n :| 0 <= n < |keys| && keys[n] == key;
      WithoutAt(keys, n);
      var others := keys[..n] + keys[n + 1..];
      forall i, j | 0 <= i < j < |others| ensures LastUse(history, others[i]) > LastUse(history, others[j]) {
        assert others[i] == keys[if i < n then i else i + 1] && others[j] == keys[if j < n then j else j + 1];
      }
    } else {
      WithoutAbsent(keys, key);
    }
  }

  lemma OneMoreLookup(config: GlyphConfig, history: seq<GlyphRunKey>, key: GlyphRunKey)
    ensures AfterLookups(config, history + [key]) == AfterLookup(config, AfterLookups(config, history), key)
    ensures AfterLookups(config, history + [key]) <= MostRecentFirst(config, history + [key])
    ensures forall other | other in AfterLookups(config, history) :: config.Cacheable(other)
  {
    assert (history + [key])[..|history|] == history;
    ListIsRecencyPrefix(config, history);
    ListIsRecencyPrefix(config, history + [key]);
  }

  // ---- What every event counts ----

  datatype CacheEvent = Lookup(key: GlyphRunKey) | Clear

  /** The recency list and the counters. */
  datatype Tally = Tally(keys: seq<GlyphRunKey>, hits: nat, misses: nat, uncacheable: nat, evictions: nat, dropped: nat)

  ghost function Counting(config: GlyphConfig, tally: Tally, event: CacheEvent): Tally {
    match event
    case Clear => tally.(keys := [], dropped := tally.dropped + |tally.keys|)
    case Lookup(key) =>
      var after := AfterLookup(config, tally.keys, key);
      if key in tally.keys then tally.(keys := after, hits := tally.hits + 1)
      else if !config.Cacheable(key) then
        tally.(misses := tally.misses + 1, uncacheable := tally.uncacheable + 1)
      else
        tally.(keys := after, misses := tally.misses + 1,
               evictions := tally.evictions + Evicted(config, tally.keys, key))
  }

  /** How many entries make room for `key`. */
  ghost function Evicted(config: GlyphConfig, keys: seq<GlyphRunKey>, key: GlyphRunKey): nat {
    TrimmedIsNoLonger(config, keys, config.Bytes(key));
    |keys| - |Trimmed(config, keys, config.Bytes(key))|
  }

  lemma {:induction false} TrimmedIsNoLonger(config: GlyphConfig, keys: seq<GlyphRunKey>, incoming: nat)
    ensures |Trimmed(config, keys, incoming)| <= |keys|
  {
    if keys != [] && !Fits(config, keys, incoming) {
      TrimmedIsNoLonger(config, keys[..|keys| - 1], incoming);
    }
  }

  ghost function TallyOf(config: GlyphConfig, events: seq<CacheEvent>): Tally {
    if events == [] then Tally([], 0, 0, 0, 0, 0)
    else Counting(config, TallyOf(config, events[..|events| - 1]), events[|events| - 1])
  }

  ghost function LookupsIn(events: seq<CacheEvent>): nat {
    if events == [] then 0 else LookupsIn(events[..|events| - 1]) + if events[|events| - 1].Lookup? then 1 else 0
  }

  lemma {:induction false} WithoutOne(keys: seq<GlyphRunKey>, key: GlyphRunKey)
    requires key in keys
    ensures |Without(keys, key)| == |keys| - 1
  {
    if keys[0] != key {
      WithoutOne(keys[1..], key);
    }
  }

  /** Over any sequence of lookups and clears, the cacheable misses are the entries in the cache, the entries
      evicted, and the entries dropped by clears; and every lookup is a hit or a miss. */
  lemma {:induction false} MissesAreAccountedFor(config: GlyphConfig, events: seq<CacheEvent>)
    ensures var tally := TallyOf(config, events);
            && tally.misses == tally.uncacheable + |tally.keys| + tally.evictions + tally.dropped
            && tally.hits + tally.misses == LookupsIn(events)
  {
    if events != [] {
      var front, last := events[..|events| - 1], events[|events| - 1];
      MissesAreAccountedFor(config, front);
      var keys := TallyOf(config, front).keys;
      if last.Lookup? && last.key in keys {
        WithoutOne(keys, last.key);
      }
    }
  }

  lemma OneMoreCounted(config: GlyphConfig, events: seq<CacheEvent>, event: CacheEvent)
    ensures TallyOf(config, events + [event]) == Counting(config, TallyOf(config, events), event)
    ensures LookupsIn(events + [event]) == LookupsIn(events) + if event.Lookup? then 1 else 0
  {
    hide Counting;
    assert (events + [event])[..|events|] == events;
  }

  // ---- The cache itself ----

  /** A list node: `id` is what iterators hold on to. */
  datatype Node = Node(id: nat, key: GlyphRunKey)
  datatype Entry = Entry(bitmap: Bitmap, bytes: nat, node: nat)

  function KeysOf(lru: seq<Node>): (keys: seq<GlyphRunKey>)
    ensures |keys| == |lru|
  {
    seq(|lru|, i requires 0 <= i < |lru| => lru[i].key)
  }

  /** The map and the list point at each other: an entry's iterator is the one node with its key. */
  ghost predicate Linked(runs: map<GlyphRunKey, Entry>, lru: seq<Node>) {
    && DistinctKeys(KeysOf(lru))
    && (forall key :: key in runs <==> key in KeysOf(lru))
    && (forall node | node in lru :: node.key in runs && runs[node.key].node == node.id)
    && (forall a, b | a in lru && b in lru && a.id == b.id :: a.key == b.key)
  }

  lemma NodesOfKeys(lru: seq<Node>)
    ensures forall node | node in lru :: node.key in KeysOf(lru)
    ensures forall key | key in KeysOf(lru) :: exists node :: node in lru && node.key == key
  {
    forall node | node in lru ensures node.key in KeysOf(lru) {
      var i :| 0 <= i < |lru| && lru[i] == node;
      assert KeysOf(lru)[i] == node.key;
    }
    forall key | key in KeysOf(lru) ensures exists node :: node in lru && node.key == key {
      var i :| 0 <= i < |lru| && KeysOf(lru)[i] == key;
      assert lru[i] in lru;
    }
  }

  lemma {:induction false} KeysCount(keys: seq<GlyphRunKey>, all: set<GlyphRunKey>)
    requires DistinctKeys(keys) && forall key :: key in all <==> key in keys
    ensures |all| == |keys|
    decreases |keys|
  {
    if keys == [] {
      assert all == {};
    } else {
      var last, front := keys[|keys| - 1], keys[..|keys| - 1];
      assert forall key :: key in keys <==> key in front || key == last;
      KeysCount(front, all - {last});
      assert all == all - {last} + {last};
    }
  }

  /** The map and the list hold the same keys, each with its own bitmap, and `bytes` is their sum. */
  ghost predicate Stored(config: GlyphConfig, runs: map<GlyphRunKey, Entry>, lru: seq<Node>,
                         nextNode: nat, bytes: nat) {
    && Linked(runs, lru)
    && (forall node | node in lru :: node.id < nextNode)
    && (forall key | key in runs ::
          runs[key].bitmap == config.render(key) && runs[key].bytes == config.Bytes(key))
    && bytes == TotalBytes(config, KeysOf(lru))
  }

  lemma EmptyIsStored(config: GlyphConfig, nextNode: nat)
    ensures Stored(config, map[], [], nextNode, 0) && KeysOf([]) == []
  {
  }

  lemma StoredKeys(config: GlyphConfig, runs: map<GlyphRunKey, Entry>, lru: seq<Node>, nextNode: nat, bytes: nat)
    requires Stored(config, runs, lru, nextNode, bytes)
    ensures DistinctKeys(KeysOf(lru)) && |runs| == |lru| && bytes == TotalBytes(config, KeysOf(lru))
    ensures forall key :: key in runs <==> key in KeysOf(lru)
  {
    KeysCount(KeysOf(lru), runs.Keys);
    assert |runs| == |runs.Keys|;
  }

  lemma UnlinkLast(runs: map<GlyphRunKey, Entry>, lru: seq<Node>)
    requires Linked(runs, lru) && lru != []
    ensures var key, n := lru[|lru| - 1].key, |lru| - 1;
            && key in runs && runs[key].node == lru[n].id
            && KeysOf(lru[..n]) == KeysOf(lru)[..n] && Linked(runs - {key}, lru[..n])
  {
    var n := |lru| - 1;
    var keys, front := KeysOf(lru), lru[..n];
    assert KeysOf(front) == keys[..n];
    assert forall other :: other in keys <==> other in keys[..n] || other == keys[n];
    NodesOfKeys(front);
    assert lru[n] in lru;
    assert forall node | node in front :: node in lru;
  }

  lemma OneFewer<K, V>(all: map<K, V>, key: K)
    requires key in all
    ensures |all| == |all - {key}| + 1
  {
    assert all.Keys == (all - {key}).Keys + {key};
    assert |all| == |all.Keys| && |all - {key}| == |(all - {key}).Keys|;
  }

  /** Dropping the last node and its entry. */
  lemma DropLast(config: GlyphConfig, runs: map<GlyphRunKey, Entry>, lru: seq<Node>, nextNode: nat, bytes: nat)
    requires Stored(config, runs, lru, nextNode, bytes) && lru != []
    ensures var key, n := lru[|lru| - 1].key, |lru| - 1;
            && key in runs && runs[key].bytes <= bytes
            && Stored(config, runs - {key}, lru[..n], nextNode, bytes - runs[key].bytes)
            && KeysOf(lru[..n]) == KeysOf(lru)[..n] && |runs| == |runs - {key}| + 1
  {
    hide Linked;
    var key := lru[|lru| - 1].key;
    UnlinkLast(runs, lru);
    OneFewer(runs, key);
  }

  /** A list with the same nodes in another order is linked just as well. */
  lemma LinkedInAnyOrder(runs: map<GlyphRunKey, Entry>, lru: seq<Node>, after: seq<Node>)
    requires Linked(runs, lru) && DistinctKeys(KeysOf(after))
    requires forall key :: key in KeysOf(after) <==> key in KeysOf(lru)
    requires forall node | node in after :: node in lru
    ensures Linked(runs, after)
  {
  }

  lemma SpliceKeys(lru: seq<Node>, i: nat)
    requires DistinctKeys(KeysOf(lru)) && i < |lru|
    ensures var keys, after := KeysOf(lru), [lru[i]] + (lru[..i] + lru[i + 1..]);
            && keys[i] == lru[i].key
            && KeysOf(after) == [keys[i]] + (keys[..i] + keys[i + 1..]) == [keys[i]] + Without(keys, keys[i])
            && forall node | node in after :: node in lru
  {
    WithoutAt(KeysOf(lru), i);
  }

  lemma FrontAndRest(keys: seq<GlyphRunKey>, key: GlyphRunKey)
    requires DistinctKeys(keys) && key in keys
    ensures DistinctKeys([key] + Without(keys, key))
    ensures forall other :: other in [key] + Without(keys, key) <==> other in keys
  {
    WithoutMembers(keys, key);
  }

  /** Splicing the node of an entry to the front. */
  lemma Splice(config: GlyphConfig, runs: map<GlyphRunKey, Entry>, lru: seq<Node>, nextNode: nat, bytes: nat, i: nat)
    requires Stored(config, runs, lru, nextNode, bytes) && i < |lru|
    ensures var after := [lru[i]] + (lru[..i] + lru[i + 1..]);
            && Stored(config, runs, after, nextNode, bytes)
            && KeysOf(after) == AfterLookup(config, KeysOf(lru), lru[i].key)
  {
    var keys := KeysOf(lru);
    SpliceKeys(lru, i);
    FrontAndRest(keys, lru[i].key);
    MoveToFrontKeepsTotal(config, keys, i);
    LinkedInAnyOrder(runs, lru, [lru[i]] + (lru[..i] + lru[i + 1..]));
  }

  lemma LinkFront(runs: map<GlyphRunKey, Entry>, lru: seq<Node>, node: Node, entry: Entry)
    requires Linked(runs, lru) && node.key !in runs && entry.node == node.id
    requires forall other | other in lru :: other.id != node.id
    ensures Linked(runs[node.key := entry], [node] + lru) && KeysOf([node] + lru) == [node.key] + KeysOf(lru)
  {
    var after, keys := [node] + lru, KeysOf(lru);
    assert KeysOf(after) == [node.key] + keys;
    assert forall key :: key in KeysOf(after) <==> key == node.key || key in keys;
    assert forall other :: other in after <==> other == node || other in lru;
    NodesOfKeys(lru);
  }

  /** Adding an entry with a node of its own at the front. */
  lemma PushFront(config: GlyphConfig, runs: map<GlyphRunKey, Entry>, lru: seq<Node>, nextNode: nat, bytes: nat,
                  key: GlyphRunKey)
    requires Stored(config, runs, lru, nextNode, bytes) && key !in runs
    ensures Stored(config, runs[key := Entry(config.render(key), config.Bytes(key), nextNode)],
                   [Node(nextNode, key)] + lru, nextNode + 1, bytes + config.Bytes(key))
    ensures KeysOf([Node(nextNode, key)] + lru) == [key] + KeysOf(lru)
  {
    hide Linked, KeysOf;
    LinkFront(runs, lru, Node(nextNode, key), Entry(config.render(key), config.Bytes(key), nextNode));
    TotalOfConcat(config, [key], KeysOf(lru));
    assert forall node :: node in [Node(nextNode, key)] + lru <==> node == Node(nextNode, key) || node in lru;
  }

  /** An entry leads to its own node. */
  lemma IteratorIsValid(config: GlyphConfig, runs: map<GlyphRunKey, Entry>, lru: seq<Node>, nextNode: nat, bytes: nat,
                        key: GlyphRunKey)
    requires Stored(config, runs, lru, nextNode, bytes) && key in runs
    ensures runs[key].bitmap == config.render(key) && key in KeysOf(lru)
    ensures exists i :: 0 <= i < |lru| && lru[i].id == runs[key].node
    ensures forall i | 0 <= i < |lru| && lru[i].id == runs[key].node :: lru[i].key == key
  {
    NodesOfKeys(lru);
    var node :| node in lru && node.key == key;
    var i :| 0 <= i < |lru| && lru[i] == node;
  }

  class GlyphRunCache {
    const config: GlyphConfig
    const fontIdentity: nat
    var runs: map<GlyphRunKey, Entry>
    var lru: seq<Node>
    var bytes: nat
    var scratch: Bitmap
    var cellWidth: nat
    var cellHeight: nat
    var columns: nat
    var rows: nat
    var hits: nat
    var misses: nat
    var evictions: nat
    var peakBytes: nat
    var metricEntries: nat
    var metricBytes: nat

    /** Everything that ever happened. */
    ghost var events: seq<CacheEvent>
    /** Lookups since the last clear; entries dropped by clears; misses that were not cached. */
    ghost var history: seq<GlyphRunKey>
    ghost var dropped: nat
    ghost var uncached: nat
    ghost var lookups: nat
    var nextNode: nat

    ghost predicate Holds()
      reads `runs, `lru, `nextNode, `bytes
    {
      Stored(config, runs, lru, nextNode, bytes)
    }

    ghost function Counts(): Tally
      reads `lru, `hits, `misses, `uncached, `evictions, `dropped
    {
      Tally(KeysOf(lru), hits, misses, uncached, evictions, dropped)
    }

    ghost predicate Counted()
      reads `runs, `bytes, `hits, `misses, `evictions, `dropped, `uncached, `lookups, `metricEntries, `metricBytes
    {
      && misses == |runs| + evictions + dropped + uncached
      && hits + misses == lookups
      && metricEntries == |runs| && metricBytes == bytes
    }

    ghost predicate Valid()
      reads `runs, `lru, `nextNode, `bytes, `hits, `misses, `evictions, `dropped, `uncached, `lookups
      reads `metricEntries, `metricBytes, `history, `peakBytes, `events
    {
      && Holds() && Counted()
      && KeysOf(lru) == AfterLookups(config, history)
      && Counts() == TallyOf(config, events)
      && lookups == LookupsIn(events)
      && |runs| <= config.maxEntries && bytes <= config.maxBytes
      && bytes <= peakBytes <= config.maxBytes
    }

    constructor (config: GlyphConfig, fontIdentity: nat, scratch: Bitmap)
      ensures Valid() && runs == map[] && history == [] && events == [] && lookups == 0
      ensures this.config == config && this.fontIdentity == fontIdentity
    {
      this.config, this.fontIdentity, this.scratch := config, fontIdentity, scratch;
      runs, lru, bytes := map[], [], 0;
      cellWidth, cellHeight, columns, rows := 1, 1, 1, 1;
      hits, misses, evictions, peakBytes, metricEntries, metricBytes := 0, 0, 0, 0, 0, 0;
      history, events, dropped, uncached, lookups, nextNode := [], [], 0, 0, 0, 0;
    }

    method UpdateGlyphCacheMetrics()
      modifies `metricEntries, `metricBytes
      ensures metricEntries == |runs| && metricBytes == bytes
    {
      metricEntries, metricBytes := |runs|, bytes;
    }

    method ClearGlyphRunCache()
      requires Valid()
      modifies `runs, `lru, `bytes, `metricEntries, `metricBytes, `history, `events, `dropped
      ensures Valid() && runs == map[] && lru == [] && history == []
      ensures events == old(events) + [Clear] && dropped == old(dropped) + |old(runs)|
    {
      hide Stored, AfterLookup, TallyOf, LookupsIn, Counting, Counts, TotalBytes, KeysOf;
      OneMoreCounted(config, events, Clear);
      DropAll();
      history, events := [], events + [Clear];
    }

    method DropAll()
      requires Holds() && Counted()
      modifies `runs, `lru, `bytes, `metricEntries, `metricBytes, `dropped
      ensures Holds() && Counted() && Counts() == Counting(config, old(Counts()), Clear)
      ensures runs == map[] && lru == [] && bytes == 0 && KeysOf(lru) == []
      ensures dropped == old(dropped) + |old(runs)|
    {
      hide Stored, AfterLookup, TallyOf, TotalBytes;
      EmptyIsStored(config, nextNode);
      StoredKeys(config, runs, lru, nextNode, bytes);
      dropped := dropped + |runs|;
      runs, lru, bytes := map[], [], 0;
      UpdateGlyphCacheMetrics();
    }

    /** The measured cell size, at least one pixel each way. */
    method UpdateCellSize(extentWidth: int, extentHeight: int)
      requires Valid()
      modifies this
      ensures Valid()
      ensures cellWidth == (if extentWidth > 1 then extentWidth else 1)
      ensures cellHeight == (if extentHeight > 1 then extentHeight else 1)
      ensures if cellWidth != old(cellWidth) || cellHeight != old(cellHeight)
              then runs == map[] && events == old(events) + [Clear] && dropped == old(dropped) + |old(runs)|
              else unchanged(`runs, `lru, `history, `events, `dropped)
      ensures unchanged(`hits, `misses, `evictions, `uncached, `lookups, `peakBytes, `columns, `rows)
    {
      hide Valid;
      var previousWidth, previousHeight := cellWidth, cellHeight;
      cellWidth := if extentWidth < 1 then 1 else extentWidth;
      cellHeight := if extentHeight < 1 then 1 else extentHeight;
      if previousWidth != cellWidth || previousHeight != cellHeight {
        ClearGlyphRunCache();
      }
    }

    /** A change of the cell size clears the cache; the grid is what fits in the client area. */
    method UpdateGeometry(extentWidth: int, extentHeight: int, clientWidth: nat, clientHeight: nat)
      returns (resized: bool)
      requires Valid()
      modifies this
      ensures Valid()
      ensures cellWidth > 0 && cellHeight > 0
      ensures cellWidth == (if extentWidth > 1 then extentWidth else 1)
      ensures cellHeight == (if extentHeight > 1 then extentHeight else 1)
      ensures if cellWidth != old(cellWidth) || cellHeight != old(cellHeight) then runs == map[]
              else runs == old(runs) && lru == old(lru) && history == old(history)
      ensures if cellWidth != old(cellWidth) || cellHeight != old(cellHeight)
              then events == old(events) + [Clear] && dropped == old(dropped) + |old(runs)|
              else events == old(events) && dropped == old(dropped)
      ensures unchanged(`hits, `misses, `evictions, `uncached, `lookups, `peakBytes)
      ensures resized <==> columns != old(columns) || rows != old(rows)
      ensures columns == CellsThatFit(clientWidth, cellWidth) && rows == CellsThatFit(clientHeight, cellHeight)
    {
      hide Valid, CellsThatFit;
      UpdateCellSize(extentWidth, extentHeight);
      var newColumns := CellsThatFit(clientWidth, cellWidth);
      var newRows := CellsThatFit(clientHeight, cellHeight);
      if newColumns == columns && newRows == rows {
        return false;
      }
      columns, rows := newColumns, newRows;
      return true;
    }

    /** Drops the last node of the list and its entry; an empty list is left alone. */
    method EvictLeastRecentlyUsedGlyphRun()
      requires Holds() && Counted()
      modifies `runs, `lru, `bytes, `evictions, `metricEntries, `metricBytes
      ensures Holds() && Counted()
      ensures old(lru) == [] ==> unchanged(`runs, `lru, `bytes, `evictions)
      ensures old(lru) != [] ==> lru == old(lru)[..|old(lru)| - 1] && evictions == old(evictions) + 1
      ensures KeysOf(lru) == KeysOf(old(lru))[..|lru|]
    {
      hide Stored, KeysOf;
      if lru == [] {
        return;
      }
      DropLast(config, runs, lru, nextNode, bytes);
      var key := lru[|lru| - 1].key;
      if key in runs {
        bytes := bytes - runs[key].bytes;
        runs := runs - {key};
      }
      lru := lru[..|lru| - 1];
      evictions := evictions + 1;
      UpdateGlyphCacheMetrics();
    }

    /** Evicts from the back until one more entry of `incoming` bytes fits. */
    method MakeRoom(incoming: nat)
      requires Holds() && Counted() && config.maxEntries > 0 && incoming <= config.maxBytes
      modifies `runs, `lru, `bytes, `evictions, `metricEntries, `metricBytes
      ensures Holds() && Counted()
      ensures KeysOf(lru) == Trimmed(config, KeysOf(old(lru)), incoming)
      ensures |runs| < config.maxEntries && bytes + incoming <= config.maxBytes
      ensures evictions + |lru| == old(evictions) + |old(lru)|
      ensures forall key | key in runs :: key in old(runs)
    {
      hide Stored, DistinctKeys;
      StoredKeys(config, runs, lru, nextNode, bytes);
      while lru != [] && (|runs| >= config.maxEntries || bytes > config.maxBytes - incoming)
        invariant Holds() && Counted() && |runs| == |lru| && bytes == TotalBytes(config, KeysOf(lru))
        invariant forall key :: key in runs <==> key in KeysOf(lru)
        invariant Trimmed(config, KeysOf(lru), incoming) == Trimmed(config, KeysOf(old(lru)), incoming)
        invariant forall key | key in runs :: key in old(runs)
        invariant evictions + |lru| == old(evictions) + |old(lru)|
        decreases |lru|
      {
        ghost var before := KeysOf(lru);
        assert !Fits(config, before, incoming);
        EvictLeastRecentlyUsedGlyphRun();
        StoredKeys(config, runs, lru, nextNode, bytes);
        assert KeysOf(lru) == before[..|before| - 1];
      }
    }

    /** The iterator of an entry leads to its own node. */
    function Position(node: nat): (i: nat)
      requires exists k :: 0 <= k < |lru| && lru[k].id == node
      reads this
      ensures i < |lru| && lru[i].id == node
    {
      PositionOf(lru, node)
    }

    method GlyphRunBitmap(text: Text, foreground: Rgb, background: Rgb, cellCount: nat, attributes: nat,
                          dpiX: int, dpiY: int)
      returns (bitmap: Bitmap)
      requires Valid()
      modifies this
      ensures Valid()
      ensures var key := GlyphRunKey(text, ColorKey(foreground), ColorKey(background), fontIdentity, cellCount,
                                     attributes, cellWidth, cellHeight, dpiX, dpiY);
              && bitmap == config.render(key)
              && history == old(history) + [key]
              && hits == old(hits) + (if key in old(runs) then 1 else 0)
              && misses == old(misses) + (if key in old(runs) then 0 else 1)
              && (CanHold(config, key) <==> key in runs)
              && LooksUp(config, KeysOf(old(lru)), KeysOf(lru), key)
              && evictions + |lru| == old(evictions) + |old(lru)| + (if key !in old(runs) && key in runs then 1 else 0)
              && (config.Cacheable(key) ==> lru != [] && lru[0].key == key)
              && (CanHold(config, key) && key !in old(runs) && |old(runs)| < config.maxEntries
                  && old(bytes) + BitmapBytes(config.render(key)) <= config.maxBytes ==>
                    evictions == old(evictions) && KeysOf(lru) == [key] + KeysOf(old(lru)))
      ensures KeysOf(lru) <= MostRecentFirst(config, history)
      ensures cellWidth == old(cellWidth) && cellHeight == old(cellHeight)
      ensures lookups == old(lookups) + 1
      ensures var key := history[|old(history)|];
              && events == old(events) + [Lookup(key)] && dropped == old(dropped)
              && uncached == old(uncached) + (if key !in old(runs) && !config.Cacheable(key) then 1 else 0)
              && evictions == old(evictions)
                 + (if key !in old(runs) && config.Cacheable(key) then Evicted(config, KeysOf(old(lru)), key) else 0)
    {
      hide Valid, MostRecentFirst, ColorKey, KeysOf, Evicted, BitmapBytes, LooksUp, CanHold;
      var key := GlyphRunKey(text, ColorKey(foreground), ColorKey(background), fontIdentity, cellCount,
                             attributes, cellWidth, cellHeight, dpiX, dpiY);
      bitmap := FindOrRender(key);
    }

    method FindOrRender(key: GlyphRunKey) returns (bitmap: Bitmap)
      requires Valid()
      modifies `runs, `lru, `bytes, `hits, `misses, `evictions, `peakBytes, `scratch, `metricEntries, `metricBytes
      modifies `history, `events, `uncached, `lookups, `nextNode
      ensures Valid() && bitmap == config.render(key)
      ensures history == old(history) + [key] && events == old(events) + [Lookup(key)]
      ensures hits == old(hits) + (if key in old(runs) then 1 else 0)
      ensures misses == old(misses) + (if key in old(runs) then 0 else 1)
      ensures uncached == old(uncached) + (if key !in old(runs) && !config.Cacheable(key) then 1 else 0)
      ensures evictions == old(evictions)
        + (if key !in old(runs) && config.Cacheable(key) then Evicted(config, KeysOf(old(lru)), key) else 0)
      ensures config.Cacheable(key) <==> key in runs
      ensures config.Cacheable(key) ==> lru != [] && lru[0].key == key
      ensures KeysOf(lru) <= MostRecentFirst(config, history) && lookups == old(lookups) + 1
      ensures LooksUp(config, KeysOf(old(lru)), KeysOf(lru), key)
      ensures CanHold(config, key) <==> key in runs
      ensures CanHold(config, key) && key !in old(runs) && |old(runs)| < config.maxEntries
              && old(bytes) + BitmapBytes(config.render(key)) <= config.maxBytes ==>
        evictions == old(evictions) && KeysOf(lru) == [key] + KeysOf(old(lru))
      ensures evictions + |lru| == old(evictions) + |old(lru)| + (if key !in old(runs) && key in runs then 1 else 0)
    {
      hide Stored, AfterLookup, AfterLookups, TotalBytes, DistinctKeys, MostRecentFirst, KeysOf, BitmapBytes;
      hide Counts, Counting, TallyOf, LookupsIn, LooksUp, Evicted, CanHold;
      StoredKeys(config, runs, lru, nextNode, bytes);
      OneMoreLookup(config, history, key);
      OneMoreCounted(config, events, Lookup(key));
      AfterLookupLooksUp(config, KeysOf(lru), key);
      ghost var keys, room := KeysOf(lru), |runs| < config.maxEntries
                                           && bytes + BitmapBytes(config.render(key)) <= config.maxBytes;
      if key in runs {
        bitmap := Hit(key);
      } else {
        bitmap := Miss(key);
        if room && CanHold(config, key) {
          RoomForAll(config, keys, KeysOf(lru), key);
        }
      }
      history, events, lookups := history + [key], events + [Lookup(key)], lookups + 1;
    }

    method Hit(key: GlyphRunKey) returns (bitmap: Bitmap)
      requires Holds() && key in runs
      modifies `lru, `hits
      ensures Holds() && bitmap == config.render(key) && hits == old(hits) + 1
      ensures KeysOf(lru) == AfterLookup(config, KeysOf(old(lru)), key) && lru != [] && lru[0].key == key
      ensures Counts() == Counting(config, old(Counts()), Lookup(key))
    {
      hide Stored, AfterLookup, KeysOf, Evicted;
      var entry := runs[key];
      IteratorIsValid(config, runs, lru, nextNode, bytes, key);
      var i := Position(entry.node);
      Splice(config, runs, lru, nextNode, bytes, i);
      lru := [lru[i]] + (lru[..i] + lru[i + 1..]);
      hits := hits + 1;
      bitmap := entry.bitmap;
    }

    method Miss(key: GlyphRunKey) returns (bitmap: Bitmap)
      requires Holds() && Counted() && key !in runs
      requires |runs| <= config.maxEntries && bytes <= config.maxBytes && bytes <= peakBytes <= config.maxBytes
      modifies `runs, `lru, `bytes, `evictions, `misses, `peakBytes, `scratch, `metricEntries, `metricBytes
      modifies `uncached, `nextNode
      ensures Holds() && bitmap == config.render(key)
      ensures misses == old(misses) + 1 && metricEntries == |runs| && metricBytes == bytes
      ensures misses == |runs| + evictions + dropped + uncached
      ensures KeysOf(lru) == AfterLookup(config, KeysOf(old(lru)), key)
      ensures |runs| <= config.maxEntries && bytes <= config.maxBytes && bytes <= peakBytes <= config.maxBytes
      ensures if config.Cacheable(key) then key in runs && lru != [] && lru[0].key == key else runs == old(runs)
      ensures uncached == old(uncached) + (if config.Cacheable(key) then 0 else 1)
      ensures evictions == old(evictions)
                           + (if config.Cacheable(key) then Evicted(config, KeysOf(old(lru)), key) else 0)
      ensures Counts() == Counting(config, old(Counts()), Lookup(key))
    {
      hide Stored, TotalBytes, Trimmed, DistinctKeys, Without, KeysOf;
      StoredKeys(config, runs, lru, nextNode, bytes);
      bitmap := config.render(key);
      var bitmapBytes := BitmapBytes(bitmap);
      var cacheable := bitmap.ok && config.maxEntries > 0 && bitmapBytes <= config.maxBytes;
      if !cacheable {
        scratch := bitmap;
        misses, uncached := misses + 1, uncached + 1;
        return;
      }
      MakeRoom(bitmapBytes);
      misses := misses + 1;
      Insert(key, bitmap, bitmapBytes);
    }

    /** Adds an entry at the front of the list. */
    method Insert(key: GlyphRunKey, bitmap: Bitmap, bitmapBytes: nat)
      requires Holds() && key !in runs && bitmap == config.render(key) && bitmapBytes == config.Bytes(key)
      modifies `runs, `lru, `bytes, `peakBytes, `nextNode, `metricEntries, `metricBytes
      ensures Holds() && KeysOf(lru) == [key] + KeysOf(old(lru)) && lru != [] && lru[0].key == key
      ensures key in runs && |runs| == |old(runs)| + 1
      ensures bytes == old(bytes) + bitmapBytes
      ensures peakBytes == if old(peakBytes) < bytes then bytes else old(peakBytes)
      ensures metricEntries == |runs| && metricBytes == bytes
    {
      hide Stored, TotalBytes, Trimmed, DistinctKeys, Without, KeysOf;
      PushFront(config, runs, lru, nextNode, bytes, key);
      runs := runs[key := Entry(bitmap, bitmapBytes, nextNode)];
      lru := [Node(nextNode, key)] + lru;
      nextNode := nextNode + 1;
      bytes := bytes + bitmapBytes;
      peakBytes := if peakBytes < bytes then bytes else peakBytes;
      UpdateGlyphCacheMetrics();
    }
  }

  function PositionOf(lru: seq<Node>, node: nat): (i: nat)
    requires exists k :: 0 <= k < |lru| && lru[k].id == node
    ensures i < |lru| && lru[i].id == node
  {
    if lru[0].id == node then 0 else
      var k :| 0 <= k < |lru| && lru[k].id == node;
      assert lru[1..][k - 1].id == node;
      1 + PositionOf(lru[1..], node)
  }

  function CellsThatFit(extent: nat, cell: nat): nat
    requires cell > 0
  {
    if extent / cell < 1 then 1 else extent / cell
  }

  /** At least one cell, and no more and no fewer than fit. */
  lemma CellsThatFitFill(extent: nat, cell: nat)
    requires cell > 0
    ensures var n := CellsThatFit(extent, cell);
            n > 0 && (n + 1) * cell > extent && (n > 1 ==> n * cell <= extent)
  {
    var fitting := extent / cell;
    assert fitting * cell <= extent < (fitting + 1) * cell;
  }
}

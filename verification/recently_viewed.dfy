/** The recently-viewed list (lib/recently-viewed-context.tsx): most recent
    first, de-duplicated by id, at most eight entries, and ignoring views
    until the provider has mounted and read back the stored list. */
module RecentlyViewed {
  import opened Wrappers
  import opened Seqs
  import opened Products

  /** The length the list is cut to after every view. */
  const MaxRecent: nat := 8

  datatype RecentState = RecentState(items: seq<Product>, mounted: bool)

  /** Before the mount effect has run. */
  const Initial := RecentState([], false)

  /** The mount effect: the provider becomes mounted and, when the storage
      key holds a list, adopts it as stored (no capping or de-duplication). */
  function Mount(s: RecentState, stored: Option<seq<Product>>): (r: RecentState)
    ensures r.mounted
    ensures stored.Some? ==> r.items == stored.value
    ensures stored.None? ==> r.items == s.items
  {
    RecentState(stored.GetOr(s.items), true)
  }

  /** The updater passed to the state setter: drop any entry with the
      product's id, put the product first, keep the first eight. */
  function Push(prev: seq<Product>, p: Product): (r: seq<Product>)
    ensures |r| > 0 && r[0] == p
    ensures forall i | 0 < i < |r| :: r[i].id != p.id
    ensures |r| == if |WithoutId(prev, p.id)| + 1 < MaxRecent then |WithoutId(prev, p.id)| + 1 else MaxRecent
    ensures r[1..] <= WithoutId(prev, p.id)
    ensures IsSubseq(r[1..], prev)
    ensures DistinctIds(prev) ==> DistinctIds(r)
  {
    var others := WithoutId(prev, p.id);
    var tail := Take(others, MaxRecent - 1);
    TakeCons(p, others, MaxRecent - 1);
    WithoutIdDropsId(prev, p.id);
    PushTail(prev, others, tail);
    assert Take([p] + others, MaxRecent)[1..] == tail;
    Take([p] + others, MaxRecent)
  }

  /** The entries kept behind the viewed product come in their earlier order. */
  lemma PushTail(prev: seq<Product>, others: seq<Product>, tail: seq<Product>)
    requires IsSubseq(others, prev) && tail <= others
    ensures IsSubseq(tail, prev)
  {
    PrefixIsSubseq(tail, others);
    SubseqTransitive(tail, others, prev);
  }

  /** `addToRecentlyViewed(p)`: a no-op until mounted, then `Push`. */
  function Add(s: RecentState, p: Product): (r: RecentState)
    ensures !s.mounted ==> r == s
    ensures s.mounted ==> r.mounted && 0 < |r.items| <= MaxRecent && r.items[0] == p
    ensures s.mounted ==> r.items == Push(s.items, p)
  {
    if !s.mounted then s else RecentState(Push(s.items, p), true)
  }

  /** After mount, viewing a new product with room to spare keeps the whole
      earlier history behind it. */
  lemma AddKeepsHistory(s: RecentState, p: Product)
    requires s.mounted && !HasId(s.items, p.id) && |s.items| < MaxRecent
    ensures Add(s, p).items == [p] + s.items
  {
    var r := Add(s, p).items;
    assert WithoutId(s.items, p.id) == s.items;
    assert |r| == |s.items| + 1;
    assert r[1..] == s.items;
    assert r == [r[0]] + r[1..];
  }

  /** `clearRecentlyViewed`: empties the list (mounted or not). */
  function Clear(s: RecentState): (r: RecentState)
    ensures r.items == [] && r.mounted == s.mounted
  {
    s.(items := [])
  }

  /** Viewing the same product twice in a row is viewing it once. */
  lemma PushIdempotent(prev: seq<Product>, p: Product)
    ensures Push(Push(prev, p), p) == Push(prev, p)
  {
    var once := Push(prev, p);
    var others := WithoutId(once, p.id);
    assert once == [p] + once[1..];
    assert others == once[1..] by {
      WithoutIdSkipsHead(p, once[1..]);
    }
  }

  /** Filtering out `p.id` from `[p] + rest` where `rest` lacks it yields `rest`. */
  lemma WithoutIdSkipsHead(p: Product, rest: seq<Product>)
    requires forall i | 0 <= i < |rest| :: rest[i].id != p.id
    ensures WithoutId([p] + rest, p.id) == rest
  {
    assert ([p] + rest)[1..] == rest;
  }

  /** Viewing a ninth distinct product drops the oldest entry. */
  lemma NinthViewDropsOldest(prev: seq<Product>, p: Product)
    requires |prev| == MaxRecent && DistinctIds(prev) && !HasId(prev, p.id)
    ensures Push(prev, p) == [p] + prev[..MaxRecent - 1]
    ensures prev[MaxRecent - 1] !in Push(prev, p)
  {
    var r := Push(prev, p);
    assert r[1..] == prev[..MaxRecent - 1];
    assert r == [r[0]] + r[1..];
  }

  /** Re-viewing a listed product moves it to the front without changing the
      length of a list that respects the cap and has distinct ids. */
  lemma ReviewMovesToFront(prev: seq<Product>, p: Product)
    requires |prev| <= MaxRecent && DistinctIds(prev) && HasId(prev, p.id)
    ensures |Push(prev, p)| == |prev|
    ensures Push(prev, p)[0] == p
  {
    WithoutIdLength(prev, p.id);
  }

  /** The list never exceeds the cap after a view, and a list with distinct
      ids keeps them. */
  lemma AddKeepsInvariant(s: RecentState, p: Product)
    requires |s.items| <= MaxRecent && DistinctIds(s.items)
    ensures |Add(s, p).items| <= MaxRecent && DistinctIds(Add(s, p).items)
  {
  }

  /** What a user can do once the provider exists: view a product or clear
      the list. */
  datatype RecentEvent = View(product: Product) | ClearAll

  function Apply(s: RecentState, e: RecentEvent): RecentState {
    match e
    case View(p) => Add(s, p)
    case ClearAll => Clear(s)
  }

  /** The state after the events in order. */
  function Replay(s: RecentState, events: seq<RecentEvent>): RecentState
    decreases |events|
  {
    if |events| == 0 then s else Replay(Apply(s, events[0]), events[1..])
  }

  /** From a state within the cap and with distinct ids, any run of views and
      clears stays within the cap with distinct ids. */
  lemma {:induction false} ReplayKeepsInvariant(s: RecentState, events: seq<RecentEvent>)
    requires |s.items| <= MaxRecent && DistinctIds(s.items)
    ensures |Replay(s, events).items| <= MaxRecent && DistinctIds(Replay(s, events).items)
    decreases |events|
  {
    if |events| > 0 {
      match events[0] {
        case View(p) => AddKeepsInvariant(s, p);
        case ClearAll =>
      }
      ReplayKeepsInvariant(Apply(s, events[0]), events[1..]);
    }
  }

  /** Mounting with nothing stored, or with a stored list within the cap and
      with distinct ids, and then any run of views and clears keeps both. */
  lemma MountThenReplay(stored: Option<seq<Product>>, events: seq<RecentEvent>)
    requires stored.Some? ==> |stored.value| <= MaxRecent && DistinctIds(stored.value)
    ensures |Replay(Mount(Initial, stored), events).items| <= MaxRecent
    ensures DistinctIds(Replay(Mount(Initial, stored), events).items)
  {
    ReplayKeepsInvariant(Mount(Initial, stored), events);
  }

  /** The stored list is adopted unchecked: a repeated id in it survives
      the next view of another product. */
  lemma StoredDuplicatesSurvive(p: Product, q: Product)
    requires p.id != q.id
    ensures Add(Mount(Initial, Some([q, q])), p).items == [p, q, q]
    ensures !DistinctIds(Add(Mount(Initial, Some([q, q])), p).items)
  {
    var r := Add(Mount(Initial, Some([q, q])), p).items;
    assert WithoutId([q, q], p.id) == [q, q] by {
      assert !HasId([q, q], p.id);
    }
    assert r[1].id == r[2].id;
  }
}

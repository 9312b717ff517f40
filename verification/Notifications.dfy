/** The bounded notification list, its producer loop and the per-account state. */
module Notifications {
  import opened Results
  import opened Sequences
  import opened Texts

  const MAX_ITEMS: nat := 100
  const MAX_SEEN_IDS: nat := 2_000
  const MAX_AGE_SECS: nat := 7 * 24 * 60 * 60
  const ANON_OWNER := "anon"

  datatype Kind = Reply | Mention

  datatype Notification = Notification(id: string, kind: Kind, author: string, preview: string, timestamp: nat, read: bool)

  /** A kind-42 event, with its author's display name and its preview already resolved. */
  datatype Post = Post(id: string, pubkey: string, createdAt: nat, tags: seq<seq<string>>, author: string, preview: string)

  datatype SyncState = SyncState(baseline: nat, seenIds: set<string>)

  // -------------------------------------------------------------------------
  // The list
  // -------------------------------------------------------------------------

  predicate NewestFirst(list: seq<Notification>) {
    forall i, j :: 0 <= i < j < |list| ==> list[i].timestamp >= list[j].timestamp
  }

  predicate DistinctIds(list: seq<Notification>) {
    forall i, j :: 0 <= i < j < |list| ==> list[i].id != list[j].id
  }

  predicate HasId(list: seq<Notification>, id: string) {
    exists n :: n in list && n.id == id
  }

  /** The first place at or after which nothing is newer than t. */
  function Slot(list: seq<Notification>, t: nat): (k: nat)
    ensures k <= |list|
    ensures forall i :: 0 <= i < k ==> list[i].timestamp > t
    ensures k < |list| ==> list[k].timestamp <= t
  {
    if list == [] || list[0].timestamp <= t then 0 else 1 + Slot(list[1..], t)
  }

  /** Puts n before everything no newer than it. */
  function Insert(list: seq<Notification>, n: Notification): seq<Notification> {
    var k := Slot(list, n.timestamp);
    list[..k] + [n] + list[k..]
  }

  /** `sort_by_key` on the reversed timestamp: newest first, ties in input order. */
  function SortNewest(list: seq<Notification>): seq<Notification> {
    if list == [] then [] else Insert(SortNewest(list[1..]), list[0])
  }

  function Take(list: seq<Notification>, n: nat): (r: seq<Notification>)
    ensures |r| <= n && r <= list
  {
    if |list| > n then list[..n] else list
  }

  /** One addition: skipped when the id is listed, else insert at 0, sort, truncate. */
  function Added(list: seq<Notification>, n: Notification, max: nat): seq<Notification> {
    if HasId(list, n.id) then list else Take(SortNewest([n] + list), max)
  }

  function AddAll(list: seq<Notification>, notes: seq<Notification>, max: nat): seq<Notification> {
    if notes == [] then list
    else Added(AddAll(list, notes[..|notes| - 1], max), notes[|notes| - 1], max)
  }

  /** The same stream into a list that is never truncated. */
  function AddAllUnbounded(list: seq<Notification>, notes: seq<Notification>): seq<Notification> {
    if notes == [] then list
    else Insert(AddAllUnbounded(list, notes[..|notes| - 1]), notes[|notes| - 1])
  }

  lemma InsertAt(list: seq<Notification>, n: Notification)
    ensures var k, r := Slot(list, n.timestamp), Insert(list, n);
      && |r| == |list| + 1 && r[k] == n
      && (forall i :: 0 <= i < k ==> r[i] == list[i])
      && (forall i :: k < i < |r| ==> r[i] == list[i - 1])
      && multiset(r) == multiset(list) + multiset{n}
  {
    hide Slot;
    var k := Slot(list, n.timestamp);
    assert list == list[..k] + list[k..];
  }

  lemma InsertKeepsOrder(list: seq<Notification>, n: Notification)
    requires NewestFirst(list)
    ensures NewestFirst(Insert(list, n))
  {
    hide Slot, Insert;
    InsertAt(list, n);
  }

  lemma InsertKeepsDistinct(list: seq<Notification>, n: Notification)
    requires DistinctIds(list) && !HasId(list, n.id)
    ensures DistinctIds(Insert(list, n))
  {
    hide Slot, Insert;
    InsertAt(list, n);
    assert forall i :: 0 <= i < |list| ==> list[i] in list;
  }

  lemma {:induction false} SortedStaysPut(list: seq<Notification>)
    requires NewestFirst(list)
    ensures SortNewest(list) == list
  {
    if list != [] {
      var rest := list[1..];
      SortedStaysPut(rest);
      assert Slot(rest, list[0].timestamp) == 0;
      assert list == [list[0]] + rest;
    }
  }

  /** Insert at 0 and re-sort is insertion in place, on a sorted list. */
  lemma SortIsInsert(list: seq<Notification>, n: Notification)
    requires NewestFirst(list)
    ensures SortNewest([n] + list) == Insert(list, n)
  {
    hide Insert;
    SortedStaysPut(list);
    assert ([n] + list)[1..] == list;
  }

  lemma TakeKeeps(list: seq<Notification>, max: nat)
    ensures NewestFirst(list) ==> NewestFirst(Take(list, max))
    ensures DistinctIds(list) ==> DistinctIds(Take(list, max))
    ensures forall id :: HasId(Take(list, max), id) ==> HasId(list, id)
  {
    assert forall n :: n in Take(list, max) ==> n in list;
  }

  /** Truncating before an insertion loses nothing that truncating after it keeps. */
  lemma TruncationCommutes(list: seq<Notification>, n: Notification, max: nat)
    ensures Take(Insert(Take(list, max), n), max) == Take(Insert(list, n), max)
  {
    hide Insert;
    var cut := Take(list, max);
    InsertAt(list, n);
    InsertAt(cut, n);
    SlotOfPrefix(list, max, n.timestamp);
  }

  lemma {:induction false} SlotOfPrefix(list: seq<Notification>, max: nat, t: nat)
    ensures Slot(Take(list, max), t) == if Slot(list, t) < max then Slot(list, t) else |Take(list, max)|
  {
    if list != [] && max > 0 && list[0].timestamp > t {
      SlotOfPrefix(list[1..], max - 1, t);
      assert Take(list, max)[1..] == Take(list[1..], max - 1);
    }
  }

  lemma {:induction false} UnboundedKeeps(list: seq<Notification>, notes: seq<Notification>)
    requires NewestFirst(list)
    ensures NewestFirst(AddAllUnbounded(list, notes))
    ensures multiset(AddAllUnbounded(list, notes)) == multiset(list) + multiset(notes)
  {
    hide Insert, NewestFirst;
    if notes != [] {
      var front, last := notes[..|notes| - 1], notes[|notes| - 1];
      assert notes == front + [last];
      UnboundedKeeps(list, front);
      InsertKeepsOrder(AddAllUnbounded(list, front), last);
      InsertAt(AddAllUnbounded(list, front), last);
    }
  }

  /** No id occurs twice in the stream, and none is in the list it starts from. */
  predicate Unseen(list: seq<Notification>, notes: seq<Notification>) {
    && (forall n :: n in notes ==> !HasId(list, n.id))
    && forall i, j :: 0 <= i < j < |notes| ==> notes[i].id != notes[j].id
  }

  lemma LastIsUnseen(list: seq<Notification>, notes: seq<Notification>)
    requires notes != [] && Unseen(list, notes) && NewestFirst(list)
    ensures Unseen(list, notes[..|notes| - 1])
    ensures !HasId(AddAllUnbounded(list, notes[..|notes| - 1]), notes[|notes| - 1].id)
  {
    hide AddAllUnbounded;
    var front, last := notes[..|notes| - 1], notes[|notes| - 1];
    UnboundedKeeps(list, front);
    assert last in notes && forall n :: n in front ==> n in notes;
    forall n | n in AddAllUnbounded(list, front)
      ensures n.id != last.id
    {
      assert n in multiset(list) + multiset(front);
      if n in front {
        var i :| 0 <= i < |front| && front[i] == n;
        assert notes[i].id != last.id;
      }
    }
  }

  /**
   * For a stream of new ids, the list that is truncated on every addition is the
   * head of the list that is never truncated.
   */
  lemma {:induction false} VisibleIsTheHead(list: seq<Notification>, notes: seq<Notification>, max: nat)
    requires NewestFirst(list) && Unseen(list, notes)
    ensures AddAll(Take(list, max), notes, max) == Take(AddAllUnbounded(list, notes), max)
  {
    hide Insert, SortNewest, Take, HasId, Unseen, NewestFirst;
    if notes != [] {
      var front, last := notes[..|notes| - 1], notes[|notes| - 1];
      LastIsUnseen(list, notes);
      VisibleIsTheHead(list, front, max);
      var full := AddAllUnbounded(list, front);
      UnboundedKeeps(list, front);
      TakeKeeps(full, max);
      SortIsInsert(Take(full, max), last);
      TruncationCommutes(full, last, max);
    }
  }

  /** What every visible list is. */
  predicate Good(list: seq<Notification>) {
    NewestFirst(list) && DistinctIds(list) && |list| <= MAX_ITEMS
  }

  lemma AddedIsGood(list: seq<Notification>, n: Notification)
    requires Good(list)
    ensures Good(Added(list, n, MAX_ITEMS))
  {
    hide Insert, SortNewest, Take, HasId, NewestFirst, DistinctIds;
    if !HasId(list, n.id) {
      SortIsInsert(list, n);
      InsertKeepsOrder(list, n);
      InsertKeepsDistinct(list, n);
      TakeKeeps(Insert(list, n), MAX_ITEMS);
    }
  }

  lemma {:induction false} AddAllIsGood(list: seq<Notification>, notes: seq<Notification>)
    requires Good(list)
    ensures Good(AddAll(list, notes, MAX_ITEMS))
  {
    hide Added, Good;
    if notes != [] {
      AddAllIsGood(list, notes[..|notes| - 1]);
      AddedIsGood(AddAll(list, notes[..|notes| - 1], MAX_ITEMS), notes[|notes| - 1]);
    }
  }

  // -------------------------------------------------------------------------
  // Arrival order
  // -------------------------------------------------------------------------

  predicate StrictlyNewestFirst(list: seq<Notification>) {
    forall i, j :: 0 <= i < j < |list| ==> list[i].timestamp > list[j].timestamp
  }

  lemma {:induction false} StrictOrderIsUnique(a: seq<Notification>, b: seq<Notification>)
    requires StrictlyNewestFirst(a) && StrictlyNewestFirst(b) && multiset(a) == multiset(b)
    ensures a == b
  {
    assert |a| == |multiset(a)| == |multiset(b)| == |b|;
    if a != [] {
      HeadsAgree(a, b);
      RestCounts(a);
      RestCounts(b);
      StrictOrderIsUnique(a[1..], b[1..]);
    }
  }

  lemma RestCounts(a: seq<Notification>)
    requires a != []
    ensures a == [a[0]] + a[1..] && multiset(a[1..]) == multiset(a) - multiset{a[0]}
  {
    assert a == [a[0]] + a[1..];
  }

  lemma HeadsAgree(a: seq<Notification>, b: seq<Notification>)
    requires StrictlyNewestFirst(a) && StrictlyNewestFirst(b) && multiset(a) == multiset(b) && a != [] && b != []
    ensures a[0] == b[0]
  {
    assert a[0] in multiset(b) && b[0] in multiset(a);
    var i :| 0 <= i < |a| && a[i] == b[0];
    var j :| 0 <= j < |b| && b[j] == a[0];
  }

  predicate DistinctTimes(notes: seq<Notification>) {
    forall m, n :: m in multiset(notes) && n in multiset(notes) && m.timestamp == n.timestamp ==> m == n && multiset(notes)[m] == 1
  }

  lemma TwiceCounted(list: seq<Notification>, i: nat, j: nat)
    requires i < j < |list|
    ensures list[i] in multiset(list) && list[j] in multiset(list)
    ensures list[i] == list[j] ==> multiset(list)[list[i]] >= 2
  {
    var front, back := list[..j], list[j..];
    assert list == front + back;
    assert front[i] in multiset(front) && back[0] in multiset(back);
  }

  lemma OrderedIsStrict(list: seq<Notification>)
    requires NewestFirst(list) && DistinctTimes(list)
    ensures StrictlyNewestFirst(list)
  {
    forall i, j | 0 <= i < j < |list|
      ensures list[i].timestamp > list[j].timestamp
    {
      TwiceCounted(list, i, j);
    }
  }

  /** Events with different times give the same visible list in whatever order the relays send them. */
  lemma BackfillOrderDoesNotMatter(a: seq<Notification>, b: seq<Notification>, max: nat)
    requires multiset(a) == multiset(b) && DistinctTimes(a)
    requires Unseen([], a) && Unseen([], b)
    ensures AddAll([], a, max) == AddAll([], b, max)
  {
    hide Unseen, NewestFirst, AddAll, AddAllUnbounded, Take;
    NothingIsOrdered();
    UnboundedKeeps([], a);
    UnboundedKeeps([], b);
    var x, y := AddAllUnbounded([], a), AddAllUnbounded([], b);
    assert multiset(x) == multiset(a) == multiset(y);
    OrderedIsStrict(x);
    OrderedIsStrict(y);
    StrictOrderIsUnique(x, y);
    VisibleIsTheHead([], a, max);
    VisibleIsTheHead([], b, max);
    TakeNothing(max);
  }

  lemma NothingIsOrdered()
    ensures NewestFirst([])
  {
  }

  lemma TakeNothing(max: nat)
    ensures Take([], max) == []
  {
  }

  /**
   * A note of the full list that is added again shows a second time exactly if truncation had dropped it and
   * its time ties with the last entry kept.
   */
  lemma RepeatShowsIff(full: seq<Notification>, n: Notification, max: nat)
    requires NewestFirst(full) && n in full && max > 0
    ensures Added(Take(full, max), n, max) != Take(full, max) <==>
      |full| > max && !HasId(Take(full, max), n.id) && full[max - 1].timestamp == n.timestamp
  {
    hide Insert, SortNewest, NewestFirst;
    var cut := Take(full, max);
    if !HasId(cut, n.id) {
      NotKept(full, n, max);
      TakeKeeps(full, max);
      SortIsInsert(cut, n);
      InsertAt(cut, n);
      assert Take(Insert(cut, n), max) == Insert(cut, n)[..max];
      if full[max - 1].timestamp > n.timestamp {
        assert Slot(cut, n.timestamp) == max;
        assert Insert(cut, n)[..max] == cut;
      } else {
        assert Slot(cut, n.timestamp) < max;
        assert n !in cut;
        assert Insert(cut, n)[..max][Slot(cut, n.timestamp)] == n;
      }
    }
  }

  lemma NotKept(full: seq<Notification>, n: Notification, max: nat)
    requires NewestFirst(full) && n in full && max > 0 && !HasId(Take(full, max), n.id)
    ensures |full| > max && Take(full, max) == full[..max] && n.timestamp <= full[max - 1].timestamp
    ensures forall i :: 0 <= i < max ==> full[i].timestamp >= full[max - 1].timestamp
  {
    var k :| 0 <= k < |full| && full[k] == n;
    var cut := Take(full, max);
    forall i | 0 <= i < |cut|
      ensures cut[i].id != n.id
    {
      assert cut[i] in cut;
    }
  }

  /** Notes with the same id or the same time are the same note. */
  predicate TellApart(notes: seq<Notification>) {
    forall m, n :: m in notes && n in notes && (m.id == n.id || m.timestamp == n.timestamp) ==> m == n
  }

  lemma InsertedPair(list: seq<Notification>, n: Notification, i: nat, j: nat)
    requires StrictlyNewestFirst(list) && (forall m :: m in list ==> m.timestamp != n.timestamp) && i < j <= |list|
    ensures |Insert(list, n)| == |list| + 1 && Insert(list, n)[i].timestamp > Insert(list, n)[j].timestamp
  {
    hide Slot, Insert;
    InsertAt(list, n);
    if i == Slot(list, n.timestamp) {
      assert list[j - 1] in list && list[j - 1].timestamp <= list[i].timestamp;
    }
  }

  lemma InsertKeepsStrict(list: seq<Notification>, n: Notification)
    requires StrictlyNewestFirst(list) && forall m :: m in list ==> m.timestamp != n.timestamp
    ensures StrictlyNewestFirst(Insert(list, n))
  {
    hide Slot, Insert;
    forall i, j | 0 <= i < j <= |list|
      ensures |Insert(list, n)| == |list| + 1 && Insert(list, n)[i].timestamp > Insert(list, n)[j].timestamp
    {
      InsertedPair(list, n, i, j);
    }
    InsertAt(list, n);
  }

  lemma InsertAddsOne(list: seq<Notification>, n: Notification)
    ensures forall m :: m in Insert(list, n) <==> m in list || m == n
  {
    hide Slot;
    var k := Slot(list, n.timestamp);
    assert list == list[..k] + list[k..];
  }

  lemma RepeatChangesNothing(full: seq<Notification>, n: Notification, max: nat)
    requires StrictlyNewestFirst(full) && n in full && max > 0
    ensures Added(Take(full, max), n, max) == Take(full, max)
  {
    hide Added;
    RepeatShowsIff(full, n, max);
    if |full| > max && full[max - 1].timestamp == n.timestamp {
      var k :| 0 <= k < |full| && full[k] == n;
      assert Take(full, max)[max - 1] == n;
    }
  }

  lemma NewNoteShows(full: seq<Notification>, n: Notification, max: nat)
    requires StrictlyNewestFirst(full) && forall m :: m in full ==> m.id != n.id
    ensures Added(Take(full, max), n, max) == Take(Insert(full, n), max)
  {
    hide Insert, SortNewest;
    TakeKeeps(full, max);
    SortIsInsert(Take(full, max), n);
    TruncationCommutes(full, n, max);
  }

  /** With distinct times, repeats included, the visible list is the head of the ordered notes of the stream. */
  lemma {:induction false} AddAllIsHead(notes: seq<Notification>, max: nat) returns (full: seq<Notification>)
    requires TellApart(notes) && max > 0
    ensures StrictlyNewestFirst(full) && (forall n :: n in full <==> n in notes)
    ensures AddAll([], notes, max) == Take(full, max)
  {
    hide Added, Insert, Take, StrictlyNewestFirst;
    if notes == [] {
      full := [];
      TakeNothing(max);
      NothingIsStrict();
    } else {
      var front, last := notes[..|notes| - 1], notes[|notes| - 1];
      assert notes == front + [last];
      full := AddAllIsHead(front, max);
      if last in front {
        RepeatChangesNothing(full, last, max);
      } else {
        NewNoteShows(full, last, max);
        InsertKeepsStrict(full, last);
        InsertAddsOne(full, last);
        full := Insert(full, last);
      }
    }
  }

  lemma NothingIsStrict()
    ensures StrictlyNewestFirst([])
  {
  }

  lemma HeadIsNewest(list: seq<Notification>)
    requires StrictlyNewestFirst(list) && list != []
    ensures StrictlyNewestFirst(list[1..]) && list[0] !in list[1..]
  {
    assert forall i :: 0 <= i < |list[1..]| ==> list[1..][i] == list[i + 1];
  }

  lemma {:induction false} StrictCounts(list: seq<Notification>, n: Notification)
    requires StrictlyNewestFirst(list)
    ensures multiset(list)[n] == if n in list then 1 else 0
  {
    hide StrictlyNewestFirst;
    if list != [] {
      RestCounts(list);
      HeadIsNewest(list);
      StrictCounts(list[1..], n);
    }
  }

  /** So only which notes arrive matters: neither their order nor how often each comes. */
  lemma OnlyTheSetMatters(a: seq<Notification>, b: seq<Notification>, max: nat)
    requires TellApart(a) && max > 0 && forall n :: n in a <==> n in b
    ensures AddAll([], a, max) == AddAll([], b, max)
  {
    hide AddAll, Take, StrictlyNewestFirst;
    var x := AddAllIsHead(a, max);
    var y := AddAllIsHead(b, max);
    forall n
      ensures multiset(x)[n] == multiset(y)[n]
    {
      StrictCounts(x, n);
      StrictCounts(y, n);
    }
    assert multiset(x) == multiset(y);
    StrictOrderIsUnique(x, y);
  }

  // -------------------------------------------------------------------------
  // Which posts notify
  // -------------------------------------------------------------------------

  predicate PTags(tags: seq<seq<string>>, pubkey: string) {
    exists t :: t in tags && |t| >= 2 && t[0] == "p" && Lower(t[1]) == Lower(pubkey)
  }

  predicate HasReplyMarker(tags: seq<seq<string>>) {
    exists t :: t in tags && |t| >= 4 && t[0] == "e" && t[3] == "reply"
  }

  predicate Notifiable(post: Post, me: Option<string>, baseline: nat) {
    var mentionsMe := me.Some? && PTags(post.tags, me.value);
    if !mentionsMe then false
    else if me.Some? && post.pubkey == me.value then false
    else post.createdAt > baseline
  }

  function DedupKey(eventId: string): string {
    "notif:" + eventId
  }

  function NoteOf(post: Post): Notification {
    Notification(DedupKey(post.id), if HasReplyMarker(post.tags) then Reply else Mention, post.author, post.preview, post.createdAt, false)
  }

  /** The notifications a list of processed posts raises, in order. */
  function NotesOf(posts: seq<Post>, me: Option<string>, baseline: nat): seq<Notification> {
    if posts == [] then []
    else
      var front, last := posts[..|posts| - 1], posts[|posts| - 1];
      if Notifiable(last, me, baseline) then NotesOf(front, me, baseline) + [NoteOf(last)] else NotesOf(front, me, baseline)
  }

  lemma NotesOneMore(posts: seq<Post>, last: Post, me: Option<string>, baseline: nat)
    ensures NotesOf(posts + [last], me, baseline) == if Notifiable(last, me, baseline) then NotesOf(posts, me, baseline) + [NoteOf(last)] else NotesOf(posts, me, baseline)
  {
    assert (posts + [last])[..|posts|] == posts;
  }

  /** The posts processed when nothing has to be evicted: each id once, unless seen. */
  function Fresh(posts: seq<Post>, seen: set<string>): (r: seq<Post>)
    ensures |r| <= |posts|
  {
    if posts == [] then []
    else
      var front, last := posts[..|posts| - 1], posts[|posts| - 1];
      if last.id in seen + Ids(front) then Fresh(front, seen) else Fresh(front, seen) + [last]
  }

  function Ids(posts: seq<Post>): set<string> {
    set p | p in posts :: p.id
  }

  lemma FreshOneMore(posts: seq<Post>, last: Post, seen: set<string>)
    ensures Fresh(posts + [last], seen) == if last.id in seen + Ids(posts) then Fresh(posts, seen) else Fresh(posts, seen) + [last]
    ensures Ids(posts + [last]) == Ids(posts) + {last.id}
  {
    assert (posts + [last])[..|posts|] == posts;
  }

  lemma {:induction false} NotesAreNotifiable(posts: seq<Post>, me: Option<string>, baseline: nat)
    ensures forall n :: n in NotesOf(posts, me, baseline) ==> exists p :: p in posts && Notifiable(p, me, baseline) && n == NoteOf(p)
    ensures forall p :: p in posts && Notifiable(p, me, baseline) ==> NoteOf(p) in NotesOf(posts, me, baseline)
  {
    hide Notifiable, NoteOf;
    if posts != [] {
      var front, last := posts[..|posts| - 1], posts[|posts| - 1];
      NotesAreNotifiable(front, me, baseline);
      assert posts == front + [last];
    }
  }

  lemma {:induction false} FreshIdsAreNew(posts: seq<Post>, seen: set<string>)
    ensures forall p :: p in Fresh(posts, seen) ==> p in posts && p.id !in seen
    ensures forall i, j :: 0 <= i < j < |Fresh(posts, seen)| ==> Fresh(posts, seen)[i].id != Fresh(posts, seen)[j].id
  {
    if posts != [] {
      var front, last := posts[..|posts| - 1], posts[|posts| - 1];
      FreshIdsAreNew(front, seen);
      assert posts == front + [last];
      assert forall i :: 0 <= i < |Fresh(front, seen)| ==> Fresh(front, seen)[i] in front;
    }
  }

  lemma {:induction false} NotesHaveDistinctIds(posts: seq<Post>, me: Option<string>, baseline: nat)
    requires forall i, j :: 0 <= i < j < |posts| ==> posts[i].id != posts[j].id
    ensures DistinctIds(NotesOf(posts, me, baseline))
  {
    hide Notifiable, DedupKey, NoteOf;
    if posts != [] {
      var front, last := posts[..|posts| - 1], posts[|posts| - 1];
      NoteKeeps(last);
      NotesHaveDistinctIds(front, me, baseline);
      NotesAreNotifiable(front, me, baseline);
      var notes := NotesOf(front, me, baseline);
      forall i | 0 <= i < |notes|
        ensures notes[i].id != DedupKey(last.id)
      {
        assert notes[i] in notes;
        var p :| p in front && notes[i] == NoteOf(p);
        var k :| 0 <= k < |front| && front[k] == p;
        assert posts[k] == p && p.id != last.id;
        DedupKeyIsInjective(p.id, last.id);
        NoteKeeps(p);
      }
    }
  }

  lemma NoteKeeps(post: Post)
    ensures NoteOf(post).id == DedupKey(post.id) && NoteOf(post).timestamp == post.createdAt
  {
  }

  lemma DedupKeyIsInjective(a: string, b: string)
    ensures DedupKey(a) == DedupKey(b) ==> a == b
  {
    assert DedupKey(a)[6..] == a && DedupKey(b)[6..] == b;
  }

  /**
   * Whatever the relay sends, while no seen id is evicted an account that starts with
   * an empty list sees the head of the full notification history of the posts it had
   * not seen.
   */
  lemma SessionShowsTheNewest(posts: seq<Post>, seen: set<string>, me: Option<string>, baseline: nat)
    ensures var notes := NotesOf(Fresh(posts, seen), me, baseline);
      && Unseen([], notes)
      && AddAll([], notes, MAX_ITEMS) == Take(AddAllUnbounded([], notes), MAX_ITEMS)
      && Good(AddAll([], notes, MAX_ITEMS))
  {
    hide AddAll, AddAllUnbounded, NotesOf, Fresh, Unseen, Take, DistinctIds;
    FreshIdsAreNew(posts, seen);
    NotesHaveDistinctIds(Fresh(posts, seen), me, baseline);
    var notes := NotesOf(Fresh(posts, seen), me, baseline);
    DistinctIsUnseen(notes);
    NothingIsOrdered();
    VisibleIsTheHead([], notes, MAX_ITEMS);
    TakeNothing(MAX_ITEMS);
    EmptyIsGood();
    AddAllIsGood([], notes);
  }

  lemma DistinctIsUnseen(notes: seq<Notification>)
    requires DistinctIds(notes)
    ensures Unseen([], notes)
  {
  }

  /** Posts with the same id or the same time are the same post. */
  predicate TellPostsApart(posts: seq<Post>) {
    forall p, q :: p in posts && q in posts && (p.id == q.id || p.createdAt == q.createdAt) ==> p == q
  }

  lemma {:induction false} FreshCovers(posts: seq<Post>, seen: set<string>)
    ensures Ids(Fresh(posts, seen)) == Ids(posts) - seen
  {
    if posts != [] {
      var front, last := posts[..|posts| - 1], posts[|posts| - 1];
      assert posts == front + [last];
      FreshCovers(front, seen);
      FreshOneMore(front, last, seen);
      if last.id !in seen + Ids(front) {
        assert Ids(Fresh(front, seen) + [last]) == Ids(Fresh(front, seen)) + {last.id};
      }
    }
  }

  lemma SameNotes(a: seq<Post>, b: seq<Post>, me: Option<string>, baseline: nat)
    requires forall p :: p in a <==> p in b
    ensures forall n :: n in NotesOf(a, me, baseline) <==> n in NotesOf(b, me, baseline)
  {
    hide Notifiable, NoteOf, NotesOf;
    NotesAreNotifiable(a, me, baseline);
    NotesAreNotifiable(b, me, baseline);
  }

  lemma NotesTellApart(posts: seq<Post>, me: Option<string>, baseline: nat)
    requires TellPostsApart(posts)
    ensures TellApart(NotesOf(posts, me, baseline))
  {
    hide Notifiable, NoteOf, NotesOf, DedupKey;
    NotesAreNotifiable(posts, me, baseline);
    forall m, n | m in NotesOf(posts, me, baseline) && n in NotesOf(posts, me, baseline) && (m.id == n.id || m.timestamp == n.timestamp)
      ensures m == n
    {
      var p :| p in posts && m == NoteOf(p);
      var q :| q in posts && n == NoteOf(q);
      NoteKeeps(p);
      NoteKeeps(q);
      DedupKeyIsInjective(p.id, q.id);
    }
  }

  lemma SamePosts(posts: seq<Post>, processed: seq<Post>, seen: set<string>)
    requires TellPostsApart(posts) && (forall p :: p in processed ==> p in posts) && Ids(posts) <= seen + Ids(processed)
    ensures forall p :: p in processed <==> p in Fresh(posts, seen - Ids(processed))
  {
    var rest := seen - Ids(processed);
    FreshCovers(posts, rest);
    FreshIdsAreNew(posts, rest);
    forall p | p in processed
      ensures p in Fresh(posts, rest)
    {
      assert p.id in Ids(processed) && p.id in Ids(posts);
      assert p.id in Ids(Fresh(posts, rest));
    }
    forall p | p in Fresh(posts, rest)
      ensures p in processed
    {
      assert p.id in Ids(Fresh(posts, rest));
    }
  }

  /**
   * With evictions a post can be processed again, but while times tell posts apart that does not show: whatever
   * was evicted, and however often a post came back, the list is the one a session without evictions would
   * show that had seen only the ids never processed.
   */
  lemma EvictionsDoNotShow(posts: seq<Post>, processed: seq<Post>, seen: set<string>, me: Option<string>, baseline: nat)
    requires TellPostsApart(posts) && (forall p :: p in processed ==> p in posts) && Ids(posts) <= seen + Ids(processed)
    ensures AddAll([], NotesOf(processed, me, baseline), MAX_ITEMS) ==
      AddAll([], NotesOf(Fresh(posts, seen - Ids(processed)), me, baseline), MAX_ITEMS)
  {
    hide AddAll, NotesOf, Fresh, TellApart, Ids;
    var once := Fresh(posts, seen - Ids(processed));
    SamePosts(posts, processed, seen);
    SameNotes(processed, once, me, baseline);
    NotesTellApart(processed, me, baseline);
    OnlyTheSetMatters(NotesOf(processed, me, baseline), NotesOf(once, me, baseline), MAX_ITEMS);
  }

  // -------------------------------------------------------------------------
  // What a post raises, and where it goes
  // -------------------------------------------------------------------------

  /** A post notifies exactly if it p-tags me, in any letter case, is not my own and is newer than the floor. */
  lemma NotifiableIff(post: Post, me: Option<string>, baseline: nat)
    ensures Notifiable(post, me, baseline) <==>
      && me.Some? && post.pubkey != me.value && post.createdAt > baseline
      && exists i :: 0 <= i < |post.tags| && |post.tags[i]| >= 2 && post.tags[i][0] == "p" && Lower(post.tags[i][1]) == Lower(me.value)
  {
  }

  /** Its entry is unread, under the post's id, and a reply exactly if an e tag says so. */
  lemma NoteIs(post: Post)
    ensures NoteOf(post) == Notification("notif:" + post.id, NoteOf(post).kind, post.author, post.preview, post.createdAt, false)
    ensures NoteOf(post).kind == Reply <==>
      exists i :: 0 <= i < |post.tags| && |post.tags[i]| >= 4 && post.tags[i][0] == "e" && post.tags[i][3] == "reply"
  {
  }

  /** A new entry goes after everything newer and before everything else, and the list is cut to 100. */
  lemma AddedGoesBefore(list: seq<Notification>, n: Notification) returns (k: nat)
    requires Good(list) && forall m <- list :: m.id != n.id
    ensures k <= |list| <= 100 && (forall i :: 0 <= i < k ==> list[i].timestamp > n.timestamp)
    ensures forall i :: k <= i < |list| ==> list[i].timestamp <= n.timestamp
    ensures var full := list[..k] + [n] + list[k..];
      Added(list, n, MAX_ITEMS) == if |full| <= 100 then full else full[..100]
  {
    hide SortNewest;
    SortIsInsert(list, n);
    k := Slot(list, n.timestamp);
  }

  /** A load keeps, in order, what is younger than seven days. */
  function Young(now: nat): Notification -> bool {
    (n: Notification) => now < n.timestamp + 604800
  }

  lemma {:induction false} RecentIsFilter(list: seq<Notification>, now: nat)
    ensures Recent(list, now) == Filter(list, Young(now))
  {
    if list != [] {
      RecentIsFilter(list[1..], now);
    }
  }

  // -------------------------------------------------------------------------
  // The store
  // -------------------------------------------------------------------------

  lemma AddAllOneMore(list: seq<Notification>, notes: seq<Notification>, n: Notification, max: nat)
    ensures AddAll(list, notes + [n], max) == Added(AddAll(list, notes, max), n, max)
  {
    assert (notes + [n])[..|notes|] == notes;
  }

  predicate NothingEvicted(posts: seq<Post>, before: set<string>, processed: seq<Post>, seen: set<string>) {
    processed == Fresh(posts, before) && seen == before + Ids(posts)
  }

  lemma EvictNothing(posts: seq<Post>, last: Post, before: set<string>, processed: seq<Post>, seen: set<string>)
    ensures NothingEvicted(posts, before, processed, seen) ==>
      if last.id in seen then NothingEvicted(posts + [last], before, processed, seen)
      else NothingEvicted(posts + [last], before, processed + [last], seen + {last.id})
  {
    hide Fresh, Ids;
    FreshOneMore(posts, last, before);
  }

  lemma Within<T>(a: set<T>, b: set<T>)
    requires a <= b
    ensures |a| <= |b|
  {
    assert b == a + (b - a);
  }

  /** While the set can hold every id, there is room for the next one. */
  lemma RoomForOne(posts: seq<Post>, i: nat, before: set<string>, seen: set<string>)
    requires i < |posts| && seen == before + Ids(posts[..i]) && posts[i].id !in seen
    ensures |seen| < |before + Ids(posts)|
  {
    assert posts[i] in posts && forall p :: p in posts[..i] ==> p in posts;
    Within(seen + {posts[i].id}, before + Ids(posts));
  }

  lemma RoomWhileNothingEvicted(posts: seq<Post>, i: nat, before: set<string>, processed: seq<Post>, seen: set<string>)
    requires i < |posts|
    ensures NothingEvicted(posts[..i], before, processed, seen) && posts[i].id !in seen ==> |seen| < |before + Ids(posts)|
  {
    hide Ids;
    if NothingEvicted(posts[..i], before, processed, seen) && posts[i].id !in seen {
      RoomForOne(posts, i, before, seen);
    }
  }

  /** Every post has been processed now or was seen before, and only those are marked. */
  predicate Covered(posts: seq<Post>, before: set<string>, processed: seq<Post>, seen: set<string>) {
    Ids(posts) <= before + Ids(processed) && seen <= before + Ids(processed)
  }

  lemma CoverOneMore(posts: seq<Post>, last: Post, before: set<string>, processed: seq<Post>, seen: set<string>)
    requires Covered(posts, before, processed, seen)
    ensures if last.id in seen then Covered(posts + [last], before, processed, seen)
      else forall seen' :: seen' <= seen + {last.id} ==> Covered(posts + [last], before, processed + [last], seen')
  {
    assert Ids(posts + [last]) == Ids(posts) + {last.id};
    assert Ids(processed + [last]) == Ids(processed) + {last.id};
  }

  lemma NothingProcessed(list: seq<Notification>, me: Option<string>, baseline: nat, seen: set<string>)
    ensures AddAll(list, NotesOf([], me, baseline), MAX_ITEMS) == list
    ensures NothingEvicted([], seen, [], seen) && Covered([], seen, [], seen)
  {
  }

  /** What is left of a stored list after a load: entries younger than seven days. */
  function Recent(list: seq<Notification>, now: nat): (r: seq<Notification>)
    ensures forall n :: n in r <==> n in list && (now <= n.timestamp || now - n.timestamp < MAX_AGE_SECS)
    ensures |r| <= |list|
  {
    if list == [] then []
    else
      var rest := Recent(list[1..], now);
      assert list == [list[0]] + list[1..];
      if now <= list[0].timestamp || now - list[0].timestamp < MAX_AGE_SECS then [list[0]] + rest else rest
  }

  lemma RecentStarts(list: seq<Notification>, now: nat)
    requires list != []
    ensures Recent(list, now) == Recent(list[1..], now) || Recent(list, now) == [list[0]] + Recent(list[1..], now)
  {
  }

  lemma RestIsGood(list: seq<Notification>)
    requires Good(list) && list != []
    ensures Good(list[1..])
    ensures forall n :: n in list[1..] ==> n.timestamp <= list[0].timestamp && n.id != list[0].id
  {
  }

  lemma HeadIsGood(n: Notification, rest: seq<Notification>)
    requires Good(rest) && |rest| < MAX_ITEMS
    requires forall m :: m in rest ==> m.timestamp <= n.timestamp && m.id != n.id
    ensures Good([n] + rest)
  {
  }

  lemma {:induction false} RecentIsGood(list: seq<Notification>, now: nat)
    requires Good(list)
    ensures Good(Recent(list, now))
  {
    hide Recent, Good;
    if list == [] {
      NothingRecent(now);
    } else {
      RestIsGood(list);
      RecentIsGood(list[1..], now);
      RecentStarts(list, now);
      GoodIsShort(list);
      HeadIsGood(list[0], Recent(list[1..], now));
    }
  }

  lemma NothingRecent(now: nat)
    ensures Recent([], now) == []
  {
  }

  lemma GoodIsShort(list: seq<Notification>)
    requires Good(list)
    ensures |list| <= MAX_ITEMS
  {
  }

  /** `Vec::iter_mut` and a mark: everything else about the entries is kept. */
  function MarkedRead(list: seq<Notification>, id: Option<string>): (r: seq<Notification>)
    ensures |r| == |list|
    ensures forall i :: 0 <= i < |list| ==> r[i] == if id == None || id == Some(list[i].id) then list[i].(read := true) else list[i]
  {
    if list == [] then []
    else [if id == None || id == Some(list[0].id) then list[0].(read := true) else list[0]] + MarkedRead(list[1..], id)
  }

  lemma MarkingIsGood(list: seq<Notification>, id: Option<string>)
    requires Good(list)
    ensures Good(MarkedRead(list, id))
  {
  }

  lemma MarkOne(list: seq<Notification>, i: nat, id: string)
    requires Good(list) && i < |list| && list[i].id == id
    ensures list[i := list[i].(read := true)] == MarkedRead(list, Some(id))
  {
    hide NewestFirst, MarkedRead;
  }

  lemma MarkNone(list: seq<Notification>, id: string)
    requires forall k :: 0 <= k < |list| ==> list[k].id != id
    ensures MarkedRead(list, Some(id)) == list
  {
    hide MarkedRead;
  }

  lemma AllMarked(before: seq<Notification>, after: seq<Notification>)
    requires |after| == |before| && forall k :: 0 <= k < |before| ==> after[k] == before[k].(read := true)
    ensures after == MarkedRead(before, None)
  {
    hide MarkedRead;
  }

  /** An account's first-sync floor, once set, is never set again. */
  predicate FloorsKept(before: map<string, SyncState>, after: map<string, SyncState>) {
    forall o :: o in before && before[o].baseline != 0 ==> o in after && after[o].baseline == before[o].baseline
  }

  /** Nothing stored for another account is touched. */
  predicate OnlyChanged<V(==)>(key: string, before: map<string, V>, after: map<string, V>) {
    && (forall o :: o in before && o != key ==> o in after && after[o] == before[o])
    && forall o :: o in after && o != key ==> o in before
  }

  lemma NothingChanged<V>(key: string, m: map<string, V>)
    ensures OnlyChanged(key, m, m)
  {
  }

  lemma OneChanged<V>(key: string, m: map<string, V>, v: V)
    ensures OnlyChanged(key, m, m[key := v])
  {
  }

  lemma FloorsUnchanged(m: map<string, SyncState>)
    ensures FloorsKept(m, m)
  {
  }

  lemma NewFloor(key: string, m: map<string, SyncState>, v: SyncState)
    requires key in m ==> m[key].baseline == 0
    ensures FloorsKept(m, m[key := v])
  {
  }

  lemma EmptyIsGood()
    ensures Good([])
  {
  }

  class NotificationStore {
    var items: seq<Notification>
    var synced: bool
    var baseline: nat
    var owner: Option<string>
    var seen: set<string>
    var storedItems: map<string, seq<Notification>>
    var storedSync: map<string, SyncState>

    function Key(): string
      reads this`owner
    {
      if owner.Some? then owner.value else ANON_OWNER
    }

    /** The list is good and storage holds it; so is every other account's. */
    ghost predicate ListStored()
      reads this`items, this`owner, this`storedItems
    {
      && Good(items)
      && Key() in storedItems && storedItems[Key()] == items
      && forall o :: o in storedItems ==> Good(storedItems[o])
    }

    /** Storage also holds the signed-in account's floor and seen ids, within bounds. */
    ghost predicate Valid()
      reads this
    {
      && ListStored() && |seen| <= MAX_SEEN_IDS
      && (owner.Some? ==> synced && owner.value in storedSync && storedSync[owner.value] == SyncState(baseline, seen))
      && forall o :: o in storedSync ==> |storedSync[o].seenIds| <= MAX_SEEN_IDS
    }

    constructor (stored: map<string, seq<Notification>>, sync: map<string, SyncState>, now: nat)
      requires forall o :: o in stored ==> Good(stored[o])
      requires forall o :: o in sync ==> |sync[o].seenIds| <= MAX_SEEN_IDS
      ensures Valid() && owner == None && !synced && storedSync == sync
      ensures items == if ANON_OWNER in stored then Recent(stored[ANON_OWNER], now) else []
    {
      if ANON_OWNER in stored {
        RecentIsGood(stored[ANON_OWNER], now);
      }
      var loaded := if ANON_OWNER in stored then Recent(stored[ANON_OWNER], now) else [];
      items, seen, baseline, owner, synced := loaded, {}, 0, None, false;
      storedItems, storedSync := stored[ANON_OWNER := loaded], sync;
    }

    method Persist()
      modifies this`storedItems
      ensures storedItems == old(storedItems)[Key() := items]
    {
      storedItems := storedItems[Key() := items];
    }

    method PersistSyncState()
      modifies this`storedSync
      ensures storedSync == if owner.None? then old(storedSync) else old(storedSync)[owner.value := SyncState(baseline, seen)]
    {
      if owner.Some? {
        storedSync := storedSync[owner.value := SyncState(baseline, seen)];
      }
    }

    method Add(note: Notification)
      requires ListStored()
      modifies this`items, this`storedItems
      ensures ListStored() && items == Added(old(items), note, MAX_ITEMS)
      ensures storedItems == old(storedItems)[Key() := items]
    {
      AddedIsGood(items, note);
      var i := 0;
      while i < |items|
        invariant 0 <= i <= |items|
        invariant forall k :: 0 <= k < i ==> items[k].id != note.id
      {
        if items[i].id == note.id {
          assert HasId(items, note.id);
          return;
        }
        i := i + 1;
      }
      items := SortNewest([note] + items);
      if |items| > MAX_ITEMS {
        items := items[..MAX_ITEMS];
      }
      Persist();
    }

    method MarkRead(id: string)
      requires Valid()
      modifies this`items, this`storedItems
      ensures Valid() && items == MarkedRead(old(items), Some(id))
    {
      hide Good, MarkedRead;
      MarkingIsGood(items, Some(id));
      var i := 0;
      while i < |items|
        invariant 0 <= i <= |items|
        invariant items == old(items) && storedItems == old(storedItems)
        invariant forall k :: 0 <= k < i ==> items[k].id != id
      {
        if items[i].id == id {
          MarkOne(items, i, id);
          items := items[i := items[i].(read := true)];
          Persist();
          return;
        }
        i := i + 1;
      }
      MarkNone(items, id);
      Persist();
    }

    method MarkAllRead()
      requires Valid()
      modifies this`items, this`storedItems
      ensures Valid() && items == MarkedRead(old(items), None)
    {
      hide Good, MarkedRead;
      MarkingIsGood(items, None);
      var changed, i := false, 0;
      while i < |items|
        invariant 0 <= i <= |items| == |old(items)|
        invariant forall k :: 0 <= k < i ==> items[k] == old(items)[k].(read := true)
        invariant forall k :: i <= k < |items| ==> items[k] == old(items)[k]
        invariant !changed ==> items == old(items)
        invariant storedItems == old(storedItems)
      {
        if !items[i].read {
          items := items[i := items[i].(read := true)];
          changed := true;
        }
        i := i + 1;
      }
      AllMarked(old(items), items);
      if changed {
        Persist();
      }
    }

    method ClearAll()
      requires Valid()
      modifies this`items, this`storedItems
      ensures Valid() && items == [] && storedItems == old(storedItems)[Key() := []]
    {
      items := [];
      Persist();
    }

    /** Attaching the effects: a provisional floor, so that history never floods the list. */
    method InitSync(now: nat)
      requires Valid()
      modifies this`synced, this`baseline
      ensures Valid() && synced
      ensures baseline == if !old(synced) && old(baseline) == 0 then now else old(baseline)
    {
      if synced {
        return;
      }
      synced := true;
      if baseline == 0 {
        baseline := now;
      }
    }

    /** The per-account resolver: everything visible is replaced by that account's own state. */
    method SwitchOwner(account: string, now: nat)
      requires Valid() && synced
      modifies this`items, this`baseline, this`owner, this`seen, this`storedItems, this`storedSync
      ensures Valid() && owner == Some(account) && FloorsKept(old(storedSync), storedSync)
      ensures OnlyChanged(account, old(storedItems), storedItems) && OnlyChanged(account, old(storedSync), storedSync)
      ensures old(owner) == Some(account) ==> items == old(items) && baseline == old(baseline) && seen == old(seen)
      ensures old(owner) != Some(account) ==>
        && items == (if account in old(storedItems) then Recent(old(storedItems)[account], now) else [])
        && seen == (if account in old(storedSync) then old(storedSync)[account].seenIds else {})
        && baseline == if account in old(storedSync) && old(storedSync)[account].baseline != 0 then old(storedSync)[account].baseline else now
    {
      hide Good, Recent, FloorsKept, OnlyChanged;
      NothingChanged(account, storedItems);
      NothingChanged(account, storedSync);
      FloorsUnchanged(storedSync);
      if owner == Some(account) {
        return;
      }
      var state := if account in storedSync then storedSync[account] else SyncState(0, {});
      seen := state.seenIds;
      Load(account, now);
      OneChanged(account, old(storedItems), items);
      owner := Some(account);
      baseline := if state.baseline == 0 then now else state.baseline;
      if state.baseline == 0 {
        PersistSyncState();
        OneChanged(account, old(storedSync), SyncState(baseline, seen));
        NewFloor(account, old(storedSync), SyncState(baseline, seen));
      }
    }

    method Load(account: string, now: nat)
      requires forall o :: o in storedItems ==> Good(storedItems[o])
      modifies this`items, this`storedItems
      ensures items == (if account in old(storedItems) then Recent(old(storedItems)[account], now) else [])
      ensures storedItems == old(storedItems)[account := items] && Good(items)
    {
      hide Good, Recent;
      EmptyIsGood();
      if account in storedItems {
        RecentIsGood(storedItems[account], now);
      }
      items := if account in storedItems then Recent(storedItems[account], now) else [];
      storedItems := storedItems[account := items];
    }

    /** One more processed id; when the set is full some other id makes room. */
    method MarkSeen(id: string)
      requires id !in seen && |seen| <= MAX_SEEN_IDS
      modifies this`seen
      ensures id in seen && |seen| <= MAX_SEEN_IDS && |seen| <= |old(seen)| + 1
      ensures |old(seen)| < MAX_SEEN_IDS ==> seen == old(seen) + {id}
      ensures seen <= old(seen) + {id} && |old(seen) - seen| <= 1
    {
      if |seen| >= MAX_SEEN_IDS {
        var victim :| victim in seen;
        seen := seen - {victim};
        assert old(seen) - (seen + {id}) == {victim};
      } else {
        assert old(seen) - (seen + {id}) == {};
      }
      seen := seen + {id};
    }

    /** One post of the producer loop: marked seen, and added when it notifies. */
    method ProcessPost(post: Post, me: Option<string>)
      requires ListStored() && post.id !in seen && |seen| <= MAX_SEEN_IDS
      modifies this`items, this`seen, this`storedItems
      ensures ListStored() && storedItems == old(storedItems)[Key() := items]
      ensures |seen| <= MAX_SEEN_IDS && seen <= old(seen) + {post.id}
      ensures |old(seen)| < MAX_SEEN_IDS ==> seen == old(seen) + {post.id}
      ensures items == if Notifiable(post, me, baseline) then Added(old(items), NoteOf(post), MAX_ITEMS) else old(items)
    {
      hide Good, Added, Notifiable, NoteOf;
      MarkSeen(post.id);
      if !Notifiable(post, me, baseline) {
        return;
      }
      Add(NoteOf(post));
    }

    lemma StoredAlready()
      requires ListStored()
      ensures storedItems == storedItems[Key() := items]
    {
    }

    method ProcessAll(posts: seq<Post>, me: Option<string>) returns (changed: bool, ghost processed: seq<Post>)
      requires ListStored() && |seen| <= MAX_SEEN_IDS
      modifies this`items, this`seen, this`storedItems
      ensures ListStored() && storedItems == old(storedItems)[Key() := items]
      ensures |seen| <= MAX_SEEN_IDS && (!changed ==> seen == old(seen))
      ensures items == AddAll(old(items), NotesOf(processed, me, baseline), MAX_ITEMS)
      ensures (forall p :: p in processed ==> p in posts) && Covered(posts, old(seen), processed, seen)
      ensures |old(seen) + Ids(posts)| <= MAX_SEEN_IDS ==> NothingEvicted(posts, old(seen), processed, seen)
    {
      hide Good, AddAll, Added, Fresh, Ids, Notifiable, NoteOf, NotesOf, ListStored, Key, NothingEvicted, Covered;
      changed, processed := false, [];
      NothingProcessed(items, me, baseline, seen);
      StoredAlready();
      var i := 0;
      assert posts[..0] == [];
      while i < |posts|
        invariant 0 <= i <= |posts|
        invariant ListStored() && storedItems == old(storedItems)[Key() := items]
        invariant |seen| <= MAX_SEEN_IDS && (!changed ==> seen == old(seen))
        invariant items == AddAll(old(items), NotesOf(processed, me, baseline), MAX_ITEMS)
        invariant (forall p :: p in processed ==> p in posts) && Covered(posts[..i], old(seen), processed, seen)
        invariant |old(seen) + Ids(posts)| <= MAX_SEEN_IDS ==> NothingEvicted(posts[..i], old(seen), processed, seen)
      {
        var post := posts[i];
        assert posts[..i + 1] == posts[..i] + [post];
        EvictNothing(posts[..i], post, old(seen), processed, seen);
        CoverOneMore(posts[..i], post, old(seen), processed, seen);
        RoomWhileNothingEvicted(posts, i, old(seen), processed, seen);
        i := i + 1;
        if post.id in seen {
          continue;
        }
        NotesOneMore(processed, post, me, baseline);
        AddAllOneMore(old(items), NotesOf(processed, me, baseline), NoteOf(post), MAX_ITEMS);
        ProcessPost(post, me);
        processed := processed + [post];
        changed := true;
      }
      assert posts[..|posts|] == posts;
    }

    /**
     * The producer effect over the relay's posts. Which seen id is evicted when the
     * set is full is arbitrary; none is exactly while the set can hold all ids, and
     * then each unseen post is processed exactly once, in order.
     */
    method ProcessPosts(posts: seq<Post>, me: Option<string>) returns (ghost processed: seq<Post>)
      requires Valid()
      modifies this`items, this`seen, this`storedItems, this`storedSync
      ensures Valid() && FloorsKept(old(storedSync), storedSync)
      ensures OnlyChanged(Key(), old(storedItems), storedItems) && OnlyChanged(Key(), old(storedSync), storedSync)
      ensures items == AddAll(old(items), NotesOf(processed, me, baseline), MAX_ITEMS)
      ensures (forall p :: p in processed ==> p in posts) && Ids(posts) <= old(seen) + Ids(processed)
      ensures |items| <= 100 && |seen| <= 2000
      ensures seen == old(seen) + Ids(posts) <==> |old(seen) + Ids(posts)| <= 2000
      ensures |old(seen) + Ids(posts)| <= 2000 ==> processed == Fresh(posts, old(seen))
    {
      hide Good, AddAll, Fresh, Ids, NotesOf;
      var changed;
      changed, processed := ProcessAll(posts, me);
      GoodIsShort(items);
      if changed {
        PersistSyncState();
      }
    }
  }
}

/** Direct messages: the store, the threads, and the inbox that summarises them. */
module Dm {
  import opened Results
  import opened Sequences
  import opened Texts

  datatype Message = Message(
    id: string,
    sender: string,
    recipient: string,
    content: string,
    timestamp: nat,
    isSent: bool)

  datatype Conversation = Conversation(
    pubkey: string,
    lastMessage: string,
    lastTimestamp: nat,
    unread: nat)

  const PREVIEW: nat := 60

  /** The other party of a message, unless that is not a 64-digit hex key. */
  function PeerOf(me: string, m: Message): (peer: Option<string>)
    ensures peer.Some? ==> |peer.value| == 64
  {
    var peer := if m.sender == me then m.recipient else m.sender;
    if IsPubkey(peer) then Some(peer) else None
  }

  // -------------------------------------------------------------------------
  // Previews
  // -------------------------------------------------------------------------

  function Truncated(content: string, max: nat): (r: string)
    ensures |r| <= max + 1
    ensures r != [] ==> max == 0 || !IsSpace(r[0])
  {
    var t := Trim(content);
    if |t| <= max then t else t[..max] + ['\U{2026}']
  }

  // -------------------------------------------------------------------------
  // Threads
  // -------------------------------------------------------------------------

  /** Where a stable sort by time puts a message that came after all of s. */
  function Slot(s: seq<Message>, t: nat): (k: nat)
    ensures k <= |s|
    ensures k > 0 ==> s[k - 1].timestamp <= t
    ensures forall i :: k <= i < |s| ==> s[i].timestamp > t
  {
    if s == [] || s[|s| - 1].timestamp <= t then |s| else Slot(s[..|s| - 1], t)
  }

  function Insert(s: seq<Message>, m: Message): (r: seq<Message>)
    ensures |r| == |s| + 1
  {
    var k := Slot(s, m.timestamp);
    s[..k] + [m] + s[k..]
  }

  function SortByTime(s: seq<Message>): (r: seq<Message>)
    ensures |r| == |s|
  {
    if s == [] then [] else Insert(SortByTime(s[..|s| - 1]), s[|s| - 1])
  }

  function With(me: string, peer: string): Message -> bool {
    (m: Message) => PeerOf(me, m) == Some(peer)
  }

  /** The conversation with one peer, oldest first. */
  function Thread(msgs: seq<Message>, me: string, peer: string): seq<Message> {
    SortByTime(Filter(msgs, With(me, peer)))
  }

  predicate Chronological(s: seq<Message>) {
    forall i, j :: 0 <= i < j < |s| ==> s[i].timestamp <= s[j].timestamp
  }

  function At(t: nat): Message -> bool {
    (m: Message) => m.timestamp == t
  }

  lemma {:induction false} NoneAt(s: seq<Message>, t: nat)
    requires forall m :: m in s ==> m.timestamp != t
    ensures Filter(s, At(t)) == []
  {
    if s != [] {
      NoneAt(s[1..], t);
    }
  }

  lemma InsertFilters(s: seq<Message>, m: Message, p: Message -> bool)
    ensures |Filter(Insert(s, m), p)| == |Filter(s, p)| + if p(m) then 1 else 0
    ensures multiset(Insert(s, m)) == multiset(s) + multiset{m}
  {
    hide Filter, Slot;
    var k := Slot(s, m.timestamp);
    assert s == s[..k] + s[k..];
    FilterJoin(s[..k], s[k..], p);
    FilterOneMore(s[..k], m, p);
    FilterJoin(s[..k] + [m], s[k..], p);
  }

  /** Among messages of one time the newcomer goes last, and nothing else moves. */
  lemma InsertIsStable(s: seq<Message>, m: Message, t: nat)
    ensures Filter(Insert(s, m), At(t)) == Filter(s, At(t)) + if m.timestamp == t then [m] else []
  {
    hide Filter, Slot;
    var k := Slot(s, m.timestamp);
    assert s == s[..k] + s[k..];
    FilterJoin(s[..k], s[k..], At(t));
    FilterOneMore(s[..k], m, At(t));
    FilterJoin(s[..k] + [m], s[k..], At(t));
    if m.timestamp == t {
      NoneAt(s[k..], t);
    }
  }

  lemma InsertSorts(s: seq<Message>, m: Message)
    requires Chronological(s)
    ensures Chronological(Insert(s, m))
    ensures Insert(s, m)[|s|] == if s == [] || s[|s| - 1].timestamp <= m.timestamp then m else s[|s| - 1]
  {
    hide Slot;
  }

  /**
   * A thread is the stable sort by time of exactly its peer's messages: same
   * messages, in time order, and ties stay in arrival order.
   */
  lemma {:induction false} SortByTimeIsStable(s: seq<Message>, t: nat)
    ensures Chronological(SortByTime(s))
    ensures multiset(SortByTime(s)) == multiset(s)
    ensures Filter(SortByTime(s), At(t)) == Filter(s, At(t))
  {
    hide Filter, Insert;
    if s != [] {
      var front, last := s[..|s| - 1], s[|s| - 1];
      SortByTimeIsStable(front, t);
      InsertSorts(SortByTime(front), last);
      InsertIsStable(SortByTime(front), last, t);
      InsertFilters(SortByTime(front), last, At(t));
      FilterOneMore(front, last, At(t));
      assert s == front + [last];
    }
  }

  // -------------------------------------------------------------------------
  // The inbox
  // -------------------------------------------------------------------------

  function ReadAt(marks: map<string, nat>, peer: string): nat {
    if peer in marks then marks[peer] else 0
  }

  function NewerThan(mark: nat): Message -> bool {
    (m: Message) => !m.isSent && m.timestamp > mark
  }

  /** The inbox line of a peer, read off the thread with that peer. */
  function Summary(thread: seq<Message>, current: Option<string>, marks: map<string, nat>, peer: string): Conversation
    requires thread != []
  {
    var last := thread[|thread| - 1];
    Conversation(peer, Truncated(last.content, PREVIEW), last.timestamp,
      if current == Some(peer) then 0 else |Filter(thread, NewerThan(ReadAt(marks, peer)))|)
  }

  predicate NewestFirst(out: seq<Conversation>) {
    forall i, j :: 0 <= i < j < |out| ==> out[i].lastTimestamp >= out[j].lastTimestamp
  }

  predicate DistinctPeers(out: seq<Conversation>) {
    forall i, j :: 0 <= i < j < |out| ==> out[i].pubkey != out[j].pubkey
  }

  ghost predicate Lists(out: seq<Conversation>, peer: string) {
    exists c :: c in out && c.pubkey == peer
  }

  /** An inbox that agrees with every thread. */
  ghost predicate IsInbox(msgs: seq<Message>, me: string, current: Option<string>, marks: map<string, nat>,
      out: seq<Conversation>) {
    && NewestFirst(out) && DistinctPeers(out)
    && (forall peer :: Lists(out, peer) <==> Thread(msgs, me, peer) != [])
    && forall c :: c in out ==> Thread(msgs, me, c.pubkey) != [] && c == Summary(Thread(msgs, me, c.pubkey), current, marks, c.pubkey)
  }

  /** How one more message changes one thread and its summary. */
  lemma ThreadStep(msgs: seq<Message>, m: Message, me: string, peer: string)
    ensures Thread(msgs + [m], me, peer) == if PeerOf(me, m) == Some(peer) then Insert(Thread(msgs, me, peer), m) else Thread(msgs, me, peer)
  {
    var mine := Filter(msgs, With(me, peer));
    FilterOneMore(msgs, m, With(me, peer));
    if PeerOf(me, m) == Some(peer) {
      assert (mine + [m])[..|mine|] == mine;
    } else {
      assert mine + [] == mine;
    }
  }

  /** What the fold does to a peer's line on one message. */
  function Updated(entry: Conversation, m: Message, current: Option<string>, marks: map<string, nat>): Conversation {
    var seen := if m.timestamp >= entry.lastTimestamp then entry.(lastMessage := Truncated(m.content, PREVIEW), lastTimestamp := m.timestamp) else entry;
    if !m.isSent && current != Some(entry.pubkey) && m.timestamp > ReadAt(marks, entry.pubkey) then seen.(unread := seen.unread + 1) else seen
  }

  lemma SummaryStep(thread: seq<Message>, m: Message, current: Option<string>, marks: map<string, nat>, peer: string)
    requires Chronological(thread)
    ensures Summary(Insert(thread, m), current, marks, peer) ==
      Updated(if thread == [] then Conversation(peer, "", 0, 0) else Summary(thread, current, marks, peer), m, current, marks)
  {
    hide Truncated, Filter, Insert;
    InsertSorts(thread, m);
    InsertFilters(thread, m, NewerThan(ReadAt(marks, peer)));
    FilterNothing(NewerThan(ReadAt(marks, peer)));
  }

  function NewestSlot(out: seq<Conversation>, t: nat): (k: nat)
    ensures k <= |out|
    ensures k > 0 ==> out[k - 1].lastTimestamp >= t
    ensures forall i :: k <= i < |out| ==> out[i].lastTimestamp < t
  {
    if out == [] || out[|out| - 1].lastTimestamp >= t then |out| else NewestSlot(out[..|out| - 1], t)
  }

  function InsertNewest(out: seq<Conversation>, c: Conversation): seq<Conversation> {
    var k := NewestSlot(out, c.lastTimestamp);
    out[..k] + [c] + out[k..]
  }

  lemma InsertNewestKeeps(out: seq<Conversation>, c: Conversation)
    requires NewestFirst(out)
    ensures NewestFirst(InsertNewest(out, c))
    ensures forall x :: x in InsertNewest(out, c) <==> x == c || x in out
  {
    hide NewestSlot, NewestFirst;
    var k := NewestSlot(out, c.lastTimestamp);
    assert out == out[..k] + out[k..];
    InsertNewestOrdered(out, c);
  }

  lemma InsertNewestOrdered(out: seq<Conversation>, c: Conversation)
    requires NewestFirst(out)
    ensures NewestFirst(InsertNewest(out, c))
  {
    hide NewestSlot;
    var k, r := NewestSlot(out, c.lastTimestamp), InsertNewest(out, c);
    assert |r| == |out| + 1 && r[k] == c;
    assert forall i :: 0 <= i < k ==> r[i] == out[i];
    assert forall i :: k < i < |r| ==> r[i] == out[i - 1];
  }

  lemma InsertNewestDistinct(out: seq<Conversation>, c: Conversation)
    requires DistinctPeers(out) && !Lists(out, c.pubkey)
    ensures DistinctPeers(InsertNewest(out, c))
  {
    hide NewestSlot;
    assert forall i :: 0 <= i < |out| ==> out[i] in out;
  }

  /** `sort_by_key` on the reversed last timestamp. */
  function SortNewest(out: seq<Conversation>): (r: seq<Conversation>)
    ensures NewestFirst(r)
    ensures forall x :: x in r <==> x in out
    ensures DistinctPeers(out) ==> DistinctPeers(r)
  {
    if out == [] then []
    else
      var front, last := out[..|out| - 1], out[|out| - 1];
      SortNewestStep(out, SortNewest(front));
      InsertNewest(SortNewest(front), last)
  }

  lemma SortNewestStep(out: seq<Conversation>, sorted: seq<Conversation>)
    requires out != [] && NewestFirst(sorted)
    requires forall x :: x in sorted <==> x in out[..|out| - 1]
    requires DistinctPeers(out[..|out| - 1]) ==> DistinctPeers(sorted)
    ensures var r := InsertNewest(sorted, out[|out| - 1]);
      && NewestFirst(r)
      && (forall x :: x in r <==> x in out)
      && (DistinctPeers(out) ==> DistinctPeers(r))
  {
    hide InsertNewest;
    var front, last := out[..|out| - 1], out[|out| - 1];
    assert out == front + [last];
    InsertNewestKeeps(sorted, last);
    if DistinctPeers(out) {
      assert forall i :: 0 <= i < |front| ==> front[i] == out[i];
      InsertNewestDistinct(sorted, last);
    }
  }

  ghost predicate Grouped(msgs: seq<Message>, me: string, current: Option<string>, marks: map<string, nat>,
      groups: map<string, Conversation>) {
    && (forall peer :: peer in groups <==> Thread(msgs, me, peer) != [])
    && forall peer :: peer in groups ==> groups[peer] == Summary(Thread(msgs, me, peer), current, marks, peer)
  }

  lemma NothingGrouped(me: string, current: Option<string>, marks: map<string, nat>)
    ensures Grouped([], me, current, marks, map[])
  {
  }

  lemma GroupStep(msgs: seq<Message>, m: Message, me: string, current: Option<string>, marks: map<string, nat>,
      groups: map<string, Conversation>, peer: string)
    requires Grouped(msgs, me, current, marks, groups) && PeerOf(me, m) == Some(peer)
    ensures var entry := if peer in groups then groups[peer] else Conversation(peer, "", 0, 0);
      entry.pubkey == peer && Grouped(msgs + [m], me, current, marks, groups[peer := Updated(entry, m, current, marks)])
  {
    hide Thread, PeerOf, Truncated, Updated, Insert, Chronological, Summary;
    SummariesNamed(msgs, me, current, marks, groups);
    forall p {
      ThreadStep(msgs, m, me, p);
    }
    ThreadIsChronological(msgs, me, peer);
    SummaryStep(Thread(msgs, me, peer), m, current, marks, peer);
  }

  /** A message without a counterparty joins no thread. */
  lemma ThreadsSkip(msgs: seq<Message>, m: Message, me: string)
    requires PeerOf(me, m) == None
    ensures forall p :: Thread(msgs + [m], me, p) == Thread(msgs, me, p)
  {
    hide Thread, PeerOf;
    forall p {
      ThreadStep(msgs, m, me, p);
    }
  }

  lemma GroupedAlike(msgs: seq<Message>, others: seq<Message>, me: string, current: Option<string>,
      marks: map<string, nat>, groups: map<string, Conversation>)
    requires Grouped(msgs, me, current, marks, groups) && forall p :: Thread(others, me, p) == Thread(msgs, me, p)
    ensures Grouped(others, me, current, marks, groups)
  {
    hide Thread, Summary;
  }

  method GroupConversations(msgs: seq<Message>, me: string, current: Option<string>, marks: map<string, nat>)
      returns (out: seq<Conversation>)
    ensures IsInbox(msgs, me, current, marks, out)
  {
    hide Thread, PeerOf, Truncated, Summary, SortNewest, Grouped, NewestFirst, DistinctPeers, Lists, ReadAt;
    var groups: map<string, Conversation> := map[];
    NothingGrouped(me, current, marks);
    var i := 0;
    while i < |msgs|
      invariant 0 <= i <= |msgs|
      invariant Grouped(msgs[..i], me, current, marks, groups)
    {
      var m := msgs[i];
      ghost var before := msgs[..i];
      assert msgs[..i + 1] == before + [m];
      i := i + 1;
      var found := PeerOf(me, m);
      if found.None? {
        ThreadsSkip(before, m, me);
        GroupedAlike(before, before + [m], me, current, marks, groups);
        continue;
      }
      var peer := found.value;
      GroupStep(before, m, me, current, marks, groups, peer);
      var entry := if peer in groups then groups[peer] else Conversation(peer, "", 0, 0);
      if m.timestamp >= entry.lastTimestamp {
        entry := entry.(lastMessage := Truncated(m.content, PREVIEW), lastTimestamp := m.timestamp);
      }
      if !m.isSent && current != Some(peer) {
        if m.timestamp > ReadAt(marks, peer) {
          entry := entry.(unread := entry.unread + 1);
        }
      }
      groups := groups[peer := entry];
    }
    assert msgs[..|msgs|] == msgs;
    SummariesNamed(msgs, me, current, marks, groups);
    out := IntoValues(groups);
    InboxFromGroups(msgs, me, current, marks, groups, out);
    out := SortNewest(out);
  }

  lemma InboxFromGroups(msgs: seq<Message>, me: string, current: Option<string>, marks: map<string, nat>,
      groups: map<string, Conversation>, out: seq<Conversation>)
    requires Grouped(msgs, me, current, marks, groups) && DistinctPeers(out)
    requires forall peer :: peer in groups <==> Lists(out, peer)
    requires forall c :: c in out ==> c.pubkey in groups && c == groups[c.pubkey]
    ensures IsInbox(msgs, me, current, marks, SortNewest(out))
  {
    hide Thread, Summary, SortNewest;
    assert forall peer :: Lists(SortNewest(out), peer) <==> Lists(out, peer);
  }

  lemma SummariesNamed(msgs: seq<Message>, me: string, current: Option<string>, marks: map<string, nat>,
      groups: map<string, Conversation>)
    requires Grouped(msgs, me, current, marks, groups)
    ensures forall peer :: peer in groups ==> groups[peer].pubkey == peer
  {
  }

  /** `HashMap::into_values`: every value once, in no particular order. */
  method IntoValues(groups: map<string, Conversation>) returns (out: seq<Conversation>)
    requires forall peer :: peer in groups ==> groups[peer].pubkey == peer
    ensures DistinctPeers(out)
    ensures forall peer :: peer in groups <==> Lists(out, peer)
    ensures forall c :: c in out ==> c.pubkey in groups && c == groups[c.pubkey]
  {
    out := [];
    var left := groups.Keys;
    while left != {}
      invariant left <= groups.Keys
      invariant DistinctPeers(out)
      invariant forall c :: c in out ==> c.pubkey in groups && c.pubkey !in left && c == groups[c.pubkey]
      invariant forall peer :: peer in groups && peer !in left ==> groups[peer] in out
      decreases |left|
    {
      var peer :| peer in left;
      left := left - {peer};
      out := out + [groups[peer]];
    }
  }

  // -------------------------------------------------------------------------
  // What the inbox promises
  // -------------------------------------------------------------------------

  /** A conversation just read shows as unread only what arrives later; the others keep their count. */
  lemma ReadingClearsOneBadge(msgs: seq<Message>, me: string, marks: map<string, nat>, peer: string, now: nat,
      other: string)
    requires Thread(msgs, me, other) != []
    ensures var line := Summary(Thread(msgs, me, other), None, marks[peer := now], other);
      && (other != peer ==> line == Summary(Thread(msgs, me, other), None, marks, other))
      && (other == peer ==>
        (line.unread == 0 <==> forall m :: m in msgs && PeerOf(me, m) == Some(peer) && !m.isSent ==> m.timestamp <= now))
  {
    hide Truncated, PeerOf, SortByTime;
    if other == peer {
      var thread := Thread(msgs, me, peer);
      ThreadMembers(msgs, me, peer);
      var later := Filter(thread, NewerThan(now));
      if later != [] {
        assert later[0] in later;
      } else {
        forall m | m in thread && !m.isSent
          ensures m.timestamp <= now
        {
          assert m !in later;
        }
      }
    }
  }

  lemma ThreadMembers(msgs: seq<Message>, me: string, peer: string)
    ensures forall m :: m in Thread(msgs, me, peer) <==> m in msgs && PeerOf(me, m) == Some(peer)
  {
    hide PeerOf;
    var mine := Filter(msgs, With(me, peer));
    SortByTimeIsStable(mine, 0);
    assert forall m :: m in Thread(msgs, me, peer) <==> m in multiset(Thread(msgs, me, peer));
    assert forall m :: m in mine <==> m in multiset(mine);
  }

  /** Every message with a valid counterparty is in exactly one listed thread. */
  lemma EveryMessageIsListed(msgs: seq<Message>, me: string, current: Option<string>, marks: map<string, nat>,
      out: seq<Conversation>, m: Message)
    requires IsInbox(msgs, me, current, marks, out) && m in msgs
    ensures PeerOf(me, m).Some? <==> exists c :: c in out && m in Thread(msgs, me, c.pubkey)
    ensures forall c :: c in out && m in Thread(msgs, me, c.pubkey) ==> Some(c.pubkey) == PeerOf(me, m) && m.timestamp <= c.lastTimestamp
  {
    hide Thread, Truncated, PeerOf, SortByTime;
    forall c | c in out && m in Thread(msgs, me, c.pubkey)
      ensures Some(c.pubkey) == PeerOf(me, m) && m.timestamp <= c.lastTimestamp
    {
      ThreadMembers(msgs, me, c.pubkey);
      ThreadIsChronological(msgs, me, c.pubkey);
    }
    if PeerOf(me, m).Some? {
      var peer := PeerOf(me, m).value;
      ThreadMembers(msgs, me, peer);
      assert Lists(out, peer);
    }
  }

  // -------------------------------------------------------------------------
  // The same, over the messages themselves
  // -------------------------------------------------------------------------

  /** A message to p, if I sent it, and otherwise one from p; p is 64 hex digits. */
  predicate WithPeer(m: Message, me: string, p: string) {
    && |p| == 64 && (forall c <- p :: c in "0123456789abcdefABCDEF")
    && ((m.sender == me && m.recipient == p) || (m.sender != me && m.sender == p))
  }

  lemma PeerIff(me: string, m: Message, p: string)
    ensures PeerOf(me, m) == Some(p) <==> WithPeer(m, me, p)
  {
    PubkeyIs64HexDigits(p);
  }

  /** A thread holds exactly the messages with its peer, each as often as it arrived. */
  lemma ThreadIff(msgs: seq<Message>, me: string, p: string, m: Message)
    ensures m in Thread(msgs, me, p) <==> m in msgs && WithPeer(m, me, p)
    ensures multiset(Thread(msgs, me, p))[m] == if WithPeer(m, me, p) then multiset(msgs)[m] else 0
  {
    hide PeerOf, WithPeer;
    PeerIff(me, m, p);
    ThreadMembers(msgs, me, p);
    FilterCounts(msgs, With(me, p), m);
    SortByTimeIsStable(Filter(msgs, With(me, p)), 0);
  }

  /** The inbox lists a peer exactly if there is a message with it. */
  lemma InboxIff(msgs: seq<Message>, me: string, current: Option<string>, marks: map<string, nat>, out: seq<Conversation>,
      p: string)
    requires IsInbox(msgs, me, current, marks, out)
    ensures Lists(out, p) <==> exists m :: m in msgs && WithPeer(m, me, p)
  {
    hide Thread, WithPeer, Summary;
    if Thread(msgs, me, p) != [] {
      ThreadIff(msgs, me, p, Thread(msgs, me, p)[0]);
    }
    if m :| m in msgs && WithPeer(m, me, p) {
      ThreadIff(msgs, me, p, m);
    }
  }

  /** Received from p after the mark. */
  predicate Unread(m: Message, me: string, p: string, mark: nat) {
    WithPeer(m, me, p) && !m.isSent && m.timestamp > mark
  }

  /** The trimmed text, up to 60 characters, then an ellipsis. */
  ghost predicate IsPreview(line: string, content: string) {
    var t := Trim(content);
    (|t| <= 60 ==> line == t) && (|t| > 60 ==> |line| == 61 && line[..60] == t[..60] && line[60] as int == 0x2026)
  }

  /**
   * A line shows the newest time, the preview of the last message to arrive with it, and how many messages of
   * its peer came after the read mark, none while the thread is open.
   */
  lemma LineShows(msgs: seq<Message>, me: string, current: Option<string>, marks: map<string, nat>, out: seq<Conversation>,
      c: Conversation) returns (i: int)
    requires IsInbox(msgs, me, current, marks, out) && c in out
    ensures 0 <= i < |msgs| && WithPeer(msgs[i], me, c.pubkey)
    ensures c.lastTimestamp == msgs[i].timestamp && IsPreview(c.lastMessage, msgs[i].content)
    ensures forall j :: 0 <= j < |msgs| && WithPeer(msgs[j], me, c.pubkey) ==>
      msgs[j].timestamp < msgs[i].timestamp || (msgs[j].timestamp == msgs[i].timestamp && j <= i)
    ensures c.unread == if current == Some(c.pubkey) then 0
      else |set k | 0 <= k < |msgs| && Unread(msgs[k], me, c.pubkey, if c.pubkey in marks then marks[c.pubkey] else 0)|
  {
    hide Thread, WithPeer, PeerOf, Trim;
    var p := c.pubkey;
    i := LastWith(msgs, me, p);
    var mark := if p in marks then marks[p] else 0;
    UnreadCount(msgs, me, p, mark);
  }

  lemma UnreadCount(msgs: seq<Message>, me: string, p: string, mark: nat)
    ensures |Filter(Thread(msgs, me, p), NewerThan(mark))| == |set k | 0 <= k < |msgs| && Unread(msgs[k], me, p, mark)|
  {
    hide PeerOf, WithPeer, SortByTime, Filter;
    var mine := Filter(msgs, With(me, p));
    SortByTimeIsStable(mine, 0);
    FilterPermutes(SortByTime(mine), mine, NewerThan(mark));
    FilterTwiceCounts(msgs, With(me, p), NewerThan(mark));
    forall k | 0 <= k < |msgs| {
      PeerIff(me, msgs[k], p);
    }
    assert Places(msgs, With(me, p), NewerThan(mark)) == set k | 0 <= k < |msgs| && Unread(msgs[k], me, p, mark);
  }

  lemma LastWith(msgs: seq<Message>, me: string, p: string) returns (i: int)
    requires Thread(msgs, me, p) != []
    ensures var thread := Thread(msgs, me, p);
      0 <= i < |msgs| && WithPeer(msgs[i], me, p) && msgs[i] == thread[|thread| - 1]
    ensures forall j :: 0 <= j < |msgs| && WithPeer(msgs[j], me, p) ==>
      msgs[j].timestamp < msgs[i].timestamp || (msgs[j].timestamp == msgs[i].timestamp && j <= i)
  {
    hide Filter, PeerOf, WithPeer, SortByTime;
    var mine, thread := Filter(msgs, With(me, p)), Thread(msgs, me, p);
    var last := thread[|thread| - 1];
    SortByTimeIsStable(mine, last.timestamp);
    FilterKeepsLast(thread, At(last.timestamp));
    i := LastOfTwo(msgs, With(me, p), At(last.timestamp));
    PeerIff(me, msgs[i], p);
    forall j | 0 <= j < |msgs|
      ensures WithPeer(msgs[j], me, p) ==> msgs[j].timestamp < last.timestamp || (msgs[j].timestamp == last.timestamp && j <= i)
    {
      PeerIff(me, msgs[j], p);
      ThreadMembers(msgs, me, p);
      if WithPeer(msgs[j], me, p) {
        assert msgs[j] in thread;
      }
    }
  }

  lemma FilterKeepsLast(s: seq<Message>, q: Message -> bool)
    requires s != [] && q(s[|s| - 1])
    ensures Filter(s, q) != [] && Filter(s, q)[|Filter(s, q)| - 1] == s[|s| - 1]
  {
    FilterOneMore(s[..|s| - 1], s[|s| - 1], q);
    assert s == s[..|s| - 1] + [s[|s| - 1]];
  }

  /** The last message that satisfies both. */
  lemma {:induction false} LastOfTwo(s: seq<Message>, p: Message -> bool, q: Message -> bool) returns (i: int)
    requires Filter(Filter(s, p), q) != []
    ensures var both := Filter(Filter(s, p), q);
      0 <= i < |s| && p(s[i]) && q(s[i]) && s[i] == both[|both| - 1]
    ensures forall j :: i < j < |s| ==> !(p(s[j]) && q(s[j]))
  {
    hide Filter;
    NoPlaces(p, q);
    var front, last := s[..|s| - 1], s[|s| - 1];
    assert s == front + [last];
    FilterTwiceOneMore(front, last, p, q);
    if p(last) && q(last) {
      i := |s| - 1;
    } else {
      i := LastOfTwo(front, p, q);
    }
  }

  lemma ThreadIsChronological(msgs: seq<Message>, me: string, peer: string)
    ensures Chronological(Thread(msgs, me, peer))
  {
    SortByTimeIsStable(Filter(msgs, With(me, peer)), 0);
  }

  // -------------------------------------------------------------------------
  // The store
  // -------------------------------------------------------------------------

  predicate DistinctIds(msgs: seq<Message>) {
    forall i, j :: 0 <= i < j < |msgs| ==> msgs[i].id != msgs[j].id
  }

  /** `Vec::retain`, dropping one id. */
  function Without(msgs: seq<Message>, id: string): (r: seq<Message>)
    ensures |r| <= |msgs|
    ensures forall m :: m in r <==> m in msgs && m.id != id
  {
    if msgs == [] then []
    else
      var front, last := msgs[..|msgs| - 1], msgs[|msgs| - 1];
      assert msgs == front + [last];
      if last.id != id then Without(front, id) + [last] else Without(front, id)
  }

  lemma WithoutOneMore(msgs: seq<Message>, last: Message, id: string)
    ensures Without(msgs + [last], id) == if last.id != id then Without(msgs, id) + [last] else Without(msgs, id)
  {
    assert (msgs + [last])[..|msgs|] == msgs;
  }

  lemma {:induction false} WithoutKeepsDistinct(msgs: seq<Message>, id: string)
    requires DistinctIds(msgs)
    ensures DistinctIds(Without(msgs, id))
  {
    hide Without;
    if msgs != [] {
      var front, last := msgs[..|msgs| - 1], msgs[|msgs| - 1];
      assert msgs == front + [last];
      assert forall i :: 0 <= i < |front| ==> front[i] == msgs[i];
      WithoutKeepsDistinct(front, id);
      WithoutOneMore(front, last, id);
      var kept := Without(front, id);
      assert forall i :: 0 <= i < |kept| ==> kept[i] in front;
    } else {
      assert forall m :: m !in Without(msgs, id);
    }
  }

  lemma {:induction false} WithoutAbsent(msgs: seq<Message>, id: string)
    requires forall m :: m in msgs ==> m.id != id
    ensures Without(msgs, id) == msgs
  {
    hide Without;
    if msgs != [] {
      var front, last := msgs[..|msgs| - 1], msgs[|msgs| - 1];
      assert msgs == front + [last];
      assert forall m :: m in front ==> m in msgs;
      WithoutAbsent(front, id);
      WithoutOneMore(front, last, id);
      assert last in msgs;
    }
  }

  class DmStore {
    var messages: seq<Message>
    var seen: set<string>
    var readMarks: map<string, nat>
    var currentPeer: Option<string>

    ghost predicate Valid()
      reads this
    {
      && DistinctIds(messages)
      && seen == set m | m in messages :: m.id
    }

    constructor ()
      ensures Valid() && messages == [] && readMarks == map[] && currentPeer == None
    {
      messages, seen, readMarks, currentPeer := [], {}, map[], None;
    }

    /** A message is kept once, whatever the relay repeats. */
    method InsertMessage(msg: Message)
      requires Valid()
      modifies this`messages, this`seen
      ensures Valid()
      ensures messages == if exists m :: m in old(messages) && m.id == msg.id then old(messages) else old(messages) + [msg]
    {
      if msg.id !in seen {
        seen := seen + {msg.id};
        messages := messages + [msg];
      }
    }

    method OpenPeer(peer: string, now: nat)
      requires Valid()
      modifies this`readMarks, this`currentPeer
      ensures Valid() && readMarks == old(readMarks)[peer := now] && currentPeer == Some(peer)
    {
      readMarks := readMarks[peer := now];
      currentPeer := Some(peer);
    }

    method ClosePeer()
      requires Valid()
      modifies this`currentPeer
      ensures Valid() && currentPeer == None
    {
      currentPeer := None;
    }

    /** A send that failed takes its optimistic echo back. */
    method TakeBack(id: string)
      requires Valid()
      modifies this`messages, this`seen
      ensures Valid() && messages == Without(old(messages), id)
    {
      WithoutKeepsDistinct(messages, id);
      seen := seen - {id};
      messages := Without(messages, id);
      assert forall m :: m in messages ==> m.id in seen;
      forall i | i in seen
        ensures exists m :: m in messages && m.id == i
      {
        var m :| m in old(messages) && m.id == i;
        assert m in messages;
      }
    }

    method Inbox(me: string) returns (out: seq<Conversation>)
      requires Valid()
      ensures IsInbox(messages, me, currentPeer, readMarks, out)
    {
      out := GroupConversations(messages, me, currentPeer, readMarks);
    }

    /**
     * Reading a thread and going back to the list: nothing received up to that
     * moment is counted for that peer.
     */
    method ReadThrough(me: string, peer: string, now: nat) returns (out: seq<Conversation>)
      requires Valid()
      modifies this`readMarks, this`currentPeer
      ensures Valid() && IsInbox(messages, me, None, old(readMarks)[peer := now], out)
      ensures forall c :: c in out && c.pubkey == peer ==>
        (c.unread == 0 <==> forall m :: m in messages && PeerOf(me, m) == Some(peer) && !m.isSent ==> m.timestamp <= now)
    {
      ghost var marks := readMarks;
      OpenPeer(peer, now);
      ClosePeer();
      out := Inbox(me);
      forall c | c in out && c.pubkey == peer
        ensures c.unread == 0 <==> forall m :: m in messages && PeerOf(me, m) == Some(peer) && !m.isSent ==> m.timestamp <= now
      {
        ReadingClearsOneBadge(messages, me, marks, peer, now, peer);
      }
    }
  }

  /** A failed send leaves the message list as it was before the echo. */
  lemma EchoTakenBack(msgs: seq<Message>, echo: Message)
    requires forall m :: m in msgs ==> m.id != echo.id
    ensures Without(msgs + [echo], echo.id) == msgs
  {
    WithoutOneMore(msgs, echo, echo.id);
    WithoutAbsent(msgs, echo.id);
  }
}

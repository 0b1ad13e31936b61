/** The log that administrators follow live: a ring of the last messages and the connected sockets. */
module WebLog {
  import opened Wrappers
  import opened Selections
  import Slices

  type Message = string

  type Socket = nat

  const RING_SIZE := 25

  datatype Event = Logged(message: Message) | Joined(socket: Socket) | Left(socket: Socket)

  function Messages(h: seq<Event>): seq<Message> {
    if h == [] then []
    else
      var e := h[|h| - 1];
      Messages(h[..|h| - 1]) + if e.Logged? then [e.message] else []
  }

  predicate Connected(h: seq<Event>, c: Socket) {
    h != [] &&
    match h[|h| - 1]
    case Logged(_) => Connected(h[..|h| - 1], c)
    case Joined(d) => d == c || Connected(h[..|h| - 1], c)
    case Left(d) => d != c && Connected(h[..|h| - 1], c)
  }

  function Newest(s: seq<Message>): seq<Message> {
    if |s| <= RING_SIZE then s else s[|s| - RING_SIZE..]
  }

  function WithoutEmpty(s: seq<Message>): seq<Message> {
    if s == [] then []
    else WithoutEmpty(s[..|s| - 1]) + if s[|s| - 1] != "" then [s[|s| - 1]] else []
  }

  /** What socket `c` has been sent after history `h`: the non-empty ones of the newest messages on
      joining, and every message while connected. */
  function Delivered(h: seq<Event>, c: Socket): seq<Message> {
    if h == [] then []
    else
      var before, e := h[..|h| - 1], h[|h| - 1];
      Delivered(before, c) +
      if e.Logged? && Connected(before, c) then [e.message]
      else if e == Joined(c) then WithoutEmpty(Newest(Messages(before)))
      else []
  }

  lemma Snoc(h: seq<Event>, e: Event, c: Socket)
    ensures Messages(h + [e]) == Messages(h) + if e.Logged? then [e.message] else []
    ensures Connected(h + [e], c) <==> (e == Joined(c) || (e != Left(c) && Connected(h, c)))
    ensures Delivered(h + [e], c) == Delivered(h, c) + (
      if e.Logged? && Connected(h, c) then [e.message]
      else if e == Joined(c) then WithoutEmpty(Newest(Messages(h)))
      else [])
  {
    assert (h + [e])[..|h|] == h;
  }

  function SentTo(sent: map<Socket, seq<Message>>, c: Socket): seq<Message> {
    if c in sent then sent[c] else []
  }

  /** Connection list and socket records are those of history `h`. */
  ghost predicate SocketsOk(h: seq<Event>, connections: seq<Socket>, sent: map<Socket, seq<Message>>) {
    && (forall i, j | 0 <= i < j < |connections| :: connections[i] != connections[j])
    && (forall c :: c in connections <==> Connected(h, c))
    && (forall c :: SentTo(sent, c) == Delivered(h, c))
  }

  lemma SocketsAfterWrite(h: seq<Event>, connections: seq<Socket>,
                          sent: map<Socket, seq<Message>>, sent': map<Socket, seq<Message>>, p: Message)
    requires SocketsOk(h, connections, sent)
    requires forall c :: SentTo(sent', c) == SentTo(sent, c) + if c in connections then [p] else []
    ensures SocketsOk(h + [Logged(p)], connections, sent')
  {
    forall c
      ensures Connected(h + [Logged(p)], c) <==> Connected(h, c)
      ensures Delivered(h + [Logged(p)], c) == Delivered(h, c) + if Connected(h, c) then [p] else []
    {
      Snoc(h, Logged(p), c);
    }
  }

  lemma ListWith(s: seq<Socket>, c: Socket)
    requires (forall i, j | 0 <= i < j < |s| :: s[i] != s[j]) && c !in s
    ensures forall i, j | 0 <= i < j < |s + [c]| :: (s + [c])[i] != (s + [c])[j]
    ensures forall d :: d in s + [c] <==> d in s || d == c
  {
  }

  lemma SocketsAfterJoin(h: seq<Event>, connections: seq<Socket>,
                         sent: map<Socket, seq<Message>>, sent': map<Socket, seq<Message>>, c: Socket)
    requires SocketsOk(h, connections, sent) && c !in connections
    requires forall d | d != c :: SentTo(sent', d) == SentTo(sent, d)
    requires SentTo(sent', c) == SentTo(sent, c) + WithoutEmpty(Newest(Messages(h)))
    ensures SocketsOk(h + [Joined(c)], connections + [c], sent')
  {
    ListWith(connections, c);
    forall d
      ensures Connected(h + [Joined(c)], d) <==> d == c || Connected(h, d)
      ensures Delivered(h + [Joined(c)], d) == Delivered(h, d) + if d == c then WithoutEmpty(Newest(Messages(h))) else []
    {
      Snoc(h, Joined(c), d);
    }
  }

  lemma SocketsAfterLeave(h: seq<Event>, connections: seq<Socket>, sent: map<Socket, seq<Message>>, c: Socket)
    requires SocketsOk(h, connections, sent)
    ensures SocketsOk(h + [Left(c)], Slices.RemoveFirst(connections, c), sent)
  {
    RemovedSocket(connections, c);
    forall d
      ensures Connected(h + [Left(c)], d) <==> d != c && Connected(h, d)
      ensures Delivered(h + [Left(c)], d) == Delivered(h, d)
    {
      Snoc(h, Left(c), d);
    }
  }

  /** Slot `k % 25` holds message `k` for the newest messages; the other slots were never written. */
  ghost predicate RingHolds(slots: seq<Option<Message>>, pos: nat, messages: seq<Message>) {
    && |slots| == RING_SIZE && pos == |messages| % RING_SIZE
    && (forall k | 0 <= k < |messages| && k >= |messages| - RING_SIZE :: slots[k % RING_SIZE] == Some(messages[k]))
    && (forall i | |messages| <= i < RING_SIZE :: slots[i] == None)
  }

  lemma RingStep(slots: seq<Option<Message>>, pos: nat, messages: seq<Message>, p: Message)
    requires RingHolds(slots, pos, messages)
    ensures RingHolds(slots[pos := Some(p)], (pos + 1) % RING_SIZE, messages + [p])
  {
    var n := |messages|;
    forall k | 0 <= k <= n && k >= n + 1 - RING_SIZE
      ensures slots[pos := Some(p)][k % RING_SIZE] == Some((messages + [p])[k])
    {
      if k < n {
        assert k % RING_SIZE != n % RING_SIZE;
      }
    }
  }

  lemma SlotIndex(n: nat, j: nat)
    ensures (n % RING_SIZE + j) % RING_SIZE == (n + j) % RING_SIZE
    ensures n + j >= RING_SIZE ==> (n + j - RING_SIZE) % RING_SIZE == (n + j) % RING_SIZE
  {
  }

  /** The slot looked at in round `j` of a replay holds the next message, or nothing was written there yet. */
  lemma SlotVisited(slots: seq<Option<Message>>, pos: nat, messages: seq<Message>, j: nat)
    requires RingHolds(slots, pos, messages) && j < RING_SIZE
    ensures
      var n := |messages|;
      var v := slots[(pos + j) % RING_SIZE];
      if n + j >= RING_SIZE then Visited(n, j + 1) == Visited(n, j) + 1 && v == Some(messages[Visited(n, j)])
      else Visited(n, j + 1) == Visited(n, j) && v == None
  {
    SlotIndex(|messages|, j);
  }

  /** What a replay has passed after `j` rounds. */
  function Shown(messages: seq<Message>, j: nat): seq<Message> {
    var n := |messages|;
    messages[if n <= RING_SIZE then 0 else n - RING_SIZE..Visited(n, j)]
  }

  lemma ShownAtEnd(messages: seq<Message>)
    ensures Shown(messages, RING_SIZE) == Newest(messages)
  {
  }

  lemma ShownStep(messages: seq<Message>, j: nat)
    requires Visited(|messages|, j + 1) == Visited(|messages|, j) + 1
    ensures
      var m := messages[Visited(|messages|, j)];
      WithoutEmpty(Shown(messages, j + 1)) == WithoutEmpty(Shown(messages, j)) + if m != "" then [m] else []
  {
    var shown, m := Shown(messages, j), messages[Visited(|messages|, j)];
    assert Shown(messages, j + 1) == shown + [m];
    assert (shown + [m])[..|shown|] == shown;
  }

  /** What round `j` of a replay has to send. */
  function Share(v: Option<Message>): seq<Message> {
    if v.Some? && v.value != "" then [v.value] else []
  }

  /** `parts[j]` is what the first `j` rounds of a replay send. */
  ghost predicate Rounds(slots: seq<Option<Message>>, pos: nat, parts: seq<seq<Message>>) {
    && |slots| == RING_SIZE && |parts| == RING_SIZE + 1 && parts[0] == []
    && forall j | 0 <= j < RING_SIZE :: parts[j + 1] == parts[j] + Share(slots[(pos + j) % RING_SIZE])
  }

  lemma RingRounds(slots: seq<Option<Message>>, pos: nat, messages: seq<Message>) returns (parts: seq<seq<Message>>)
    requires RingHolds(slots, pos, messages)
    ensures Rounds(slots, pos, parts) && parts[RING_SIZE] == WithoutEmpty(Newest(messages))
  {
    parts := seq(RING_SIZE + 1, j requires 0 <= j <= RING_SIZE => WithoutEmpty(Shown(messages, j)));
    forall j | 0 <= j < RING_SIZE
      ensures parts[j + 1] == parts[j] + Share(slots[(pos + j) % RING_SIZE])
    {
      SlotVisited(slots, pos, messages, j);
      if |messages| + j >= RING_SIZE {
        ShownStep(messages, j);
      } else {
        assert Shown(messages, j + 1) == Shown(messages, j);
      }
    }
    ShownAtEnd(messages);
  }

  class WebLogger {
    const slots: array<Option<Message>>   // the ring
    var pos: nat                          // its current element
    var connections: seq<Socket>
    var sent: map<Socket, seq<Message>>   // what each socket was sent, an append-only record
    var defaultLog: seq<Message>
    ghost var history: seq<Event>

    ghost predicate Valid()
      reads this, slots
    {
      && RingHolds(slots[..], pos, Messages(history))
      && defaultLog == Messages(history)
      && SocketsOk(history, connections, sent)
    }

    constructor ()
      ensures Valid() && history == [] && fresh(slots)
    {
      slots := new Option<Message>[RING_SIZE](_ => None);
      pos := 0;
      connections := [];
      sent := map[];
      defaultLog := [];
      history := [];
    }

    method Send(c: Socket, p: Message)
      modifies this`sent
      ensures SentTo(sent, c) == SentTo(old(sent), c) + [p]
      ensures forall d | d != c :: SentTo(sent, d) == SentTo(old(sent), d)
    {
      sent := sent[c := SentTo(sent, c) + [p]];
    }

    /** What a replay does with the value of a slot. */
    method SendStored(c: Socket, v: Option<Message>)
      modifies this`sent
      ensures SentTo(sent, c) == SentTo(old(sent), c) + Share(v)
      ensures forall d | d != c :: SentTo(sent, d) == SentTo(old(sent), d)
    {
      if v.Some? && v.value != "" {
        Send(c, v.value);
      }
    }

    /** The loop over the connections. */
    method Broadcast(p: Message)
      requires forall i, j | 0 <= i < j < |connections| :: connections[i] != connections[j]
      modifies this`sent
      ensures forall c :: SentTo(sent, c) == SentTo(old(sent), c) + if c in connections then [p] else []
    {
      var i := 0;
      while i < |connections|
        invariant 0 <= i <= |connections|
        invariant forall c :: SentTo(sent, c) == SentTo(old(sent), c) + if c in connections[..i] then [p] else []
      {
        assert connections[..i + 1] == connections[..i] + [connections[i]];
        assert connections[i] !in connections[..i];
        Send(connections[i], p);
        i := i + 1;
      }
      assert connections[..i] == connections;
    }

    /** Stores `p` in the ring and sends it to every connection. */
    method Write(p: Message)
      requires Valid()
      modifies this, slots
      ensures Valid() && history == old(history) + [Logged(p)]
    {
      RingStep(slots[..], pos, Messages(history), p);
      ghost var stored := slots[..][pos := Some(p)];
      slots[pos] := Some(p);
      assert slots[..] == stored;
      pos := (pos + 1) % RING_SIZE;
      Broadcast(p);
      defaultLog := defaultLog + [p];
      SocketsAfterWrite(history, connections, old(sent), sent, p);
      Snoc(history, Logged(p), 0);
      history := history + [Logged(p)];
    }

    /** `ring.Do`: sends the stored non-empty messages to `c`, from the current element on. */
    method Replay(c: Socket, ghost parts: seq<seq<Message>>)
      requires Rounds(slots[..], pos, parts)
      modifies this`sent
      ensures forall d | d != c :: SentTo(sent, d) == SentTo(old(sent), d)
      ensures SentTo(sent, c) == SentTo(old(sent), c) + parts[RING_SIZE]
    {
      ghost var ring := slots[..];
      var j := 0;
      while j < RING_SIZE
        invariant 0 <= j <= RING_SIZE
        invariant slots[..] == ring
        invariant forall d | d != c :: SentTo(sent, d) == SentTo(old(sent), d)
        invariant SentTo(sent, c) == SentTo(old(sent), c) + parts[j]
      {
        var v := slots[(pos + j) % RING_SIZE];
        assert v == ring[(pos + j) % RING_SIZE] && parts[j + 1] == parts[j] + Share(v);
        SendStored(c, v);
        j := j + 1;
      }
    }

    /** Replays the ring to a new connection and adds it to the list. */
    method AddConnection(c: Socket)
      requires Valid() && c !in connections
      modifies this
      ensures Valid() && history == old(history) + [Joined(c)]
    {
      ghost var parts := RingRounds(slots[..], pos, Messages(history));
      Replay(c, parts);
      SocketsAfterJoin(history, connections, old(sent), sent, c);
      connections := connections + [c];
      Snoc(history, Joined(c), c);
      history := history + [Joined(c)];
    }

    method RemoveConnection(c: Socket)
      requires Valid()
      modifies this
      ensures Valid() && history == old(history) + [Left(c)]
    {
      SocketsAfterLeave(history, connections, sent, c);
      connections := Slices.Removed(connections, c);
      Snoc(history, Left(c), c);
      history := history + [Left(c)];
    }
  }

  /** Position up to which the replay has come after `j` rounds when `n` messages were logged. */
  function Visited(n: nat, j: nat): nat {
    if n + j <= RING_SIZE then 0 else if n + j - RING_SIZE <= n then n + j - RING_SIZE else n
  }

  lemma {:induction false} RemovedSocket(s: seq<Socket>, c: Socket)
    requires forall i, j | 0 <= i < j < |s| :: s[i] != s[j]
    ensures
      var r := Slices.RemoveFirst(s, c);
      (forall i, j | 0 <= i < j < |r| :: r[i] != r[j]) && forall d :: d in r <==> d in s && d != c
  {
    if s != [] {
      assert s == [s[0]] + s[1..];
      RemovedSocket(s[1..], c);
      assert s[0] !in s[1..];
    }
  }

  // --------------------------------------------------------------- theorem

  lemma Assoc(a: seq<Message>, b: seq<Message>, c: seq<Message>)
    ensures (a + b) + c == a + (b + c)
  {
  }

  lemma FollowsStep(h: seq<Event>, c: Socket, first: seq<Message>, init: seq<Event>, e: Event)
    requires Connected(h, c) && Delivered(h, c) == first + Messages(init)
    requires e != Left(c) && e != Joined(c)
    ensures Connected(h + [e], c) && Delivered(h + [e], c) == first + Messages(init + [e])
  {
    Snoc(h, e, c);
    Snoc(init, e, c);
    Assoc(first, Messages(init), if e.Logged? then [e.message] else []);
  }

  /** Neither leaves nor joins again. */
  ghost predicate Stays(after: seq<Event>, c: Socket) {
    forall e | e in after :: e != Left(c) && e != Joined(c)
  }

  lemma StaysInit(after: seq<Event>, c: Socket)
    requires Stays(after, c) && after != []
    ensures Stays(after[..|after| - 1], c) && after[|after| - 1] != Left(c) && after[|after| - 1] != Joined(c)
  {
    var last := |after| - 1;
    assert after[last] in after;
    forall e | e in after[..last]
      ensures e in after
    {
      var i :| 0 <= i < last && after[..last][i] == e;
      assert after[i] == e;
    }
  }

  lemma AppendLast(h: seq<Event>, after: seq<Event>)
    requires after != []
    ensures
      var init, e := after[..|after| - 1], after[|after| - 1];
      after == init + [e] && h + after == (h + init) + [e]
  {
  }

  lemma {:induction false} Follows(h: seq<Event>, c: Socket, after: seq<Event>)
    requires Connected(h, c) && Stays(after, c)
    ensures Connected(h + after, c) && Delivered(h + after, c) == Delivered(h, c) + Messages(after)
    decreases |after|
  {
    if after == [] {
      assert h + after == h;
    } else {
      var init, e := after[..|after| - 1], after[|after| - 1];
      StaysInit(after, c);
      Follows(h, c, init);
      FollowsStep(h + init, c, Delivered(h, c), init, e);
      AppendLast(h, after);
    }
  }

  /** Whoever joins has been sent, at every later time until it leaves, the newest (at most 25)
      messages logged before, without the empty ones, and then every later message: in order, without
      gap and without duplicate. */
  lemma ReplayThenFollow(before: seq<Event>, c: Socket, after: seq<Event>)
    requires Stays(after, c)
    ensures
      var h := before + [Joined(c)] + after;
      Connected(h, c)
      && Delivered(h, c) == Delivered(before, c) + WithoutEmpty(Newest(Messages(before))) + Messages(after)
  {
    Snoc(before, Joined(c), c);
    Follows(before + [Joined(c)], c, after);
  }

  /** After leaving nothing more is sent. */
  lemma {:induction false} SilentWhileAway(h: seq<Event>, c: Socket, after: seq<Event>)
    requires !Connected(h, c) && forall e | e in after :: e != Joined(c)
    ensures Delivered(h + after, c) == Delivered(h, c) && !Connected(h + after, c)
    decreases |after|
  {
    if after == [] {
      assert h + after == h;
    } else {
      var init, e := after[..|after| - 1], after[|after| - 1];
      assert e in after && forall x | x in init :: x in after;
      SilentWhileAway(h, c, init);
      assert h + after == (h + init) + [e];
      Snoc(h + init, e, c);
    }
  }

  /** Whoever never joined, or has left, gets nothing from then on. */
  lemma SilentAfterLeaving(before: seq<Event>, c: Socket, after: seq<Event>)
    requires forall e | e in after :: e != Joined(c)
    ensures Delivered(before + [Left(c)] + after, c) == Delivered(before, c)
    ensures Delivered(after, c) == []
  {
    Snoc(before, Left(c), c);
    SilentWhileAway(before + [Left(c)], c, after);
    SilentWhileAway([], c, after);
    assert [] + after == after;
  }

  /** With no empty message in the log the replay is the newest messages themselves. */
  lemma {:induction false} NothingFiltered(s: seq<Message>)
    requires "" !in s
    ensures WithoutEmpty(s) == s
  {
    if s != [] {
      NothingFiltered(s[..|s| - 1]);
    }
  }

  function Logs(messages: seq<Message>): seq<Event> {
    seq(|messages|, i requires 0 <= i < |messages| => Logged(messages[i]))
  }

  /** The messages of a history are those of its log events, in order. */
  lemma {:induction false} MessagesPicked(h: seq<Event>)
    ensures PicksExactly(Logs(Messages(h)), h, (e: Event) => e.Logged?)
  {
    if h == [] {
      assert Logs([]) == [];
      PicksNothing((e: Event) => e.Logged?);
    } else {
      var init, e := h[..|h| - 1], h[|h| - 1];
      MessagesPicked(init);
      PicksNext(Logs(Messages(init)), init, e, (x: Event) => x.Logged?);
      assert h == init + [e];
      assert Logs(Messages(h)) == Logs(Messages(init)) + if e.Logged? then [e] else [];
    }
  }

  /** What a replay of messages sends is every message but the empty ones, in order. */
  lemma {:induction false} NonEmptyPicked(s: seq<Message>)
    ensures PicksExactly(WithoutEmpty(s), s, m => m != "")
  {
    if s == [] {
      PicksNothing((m: Message) => m != "");
    } else {
      var init, m := s[..|s| - 1], s[|s| - 1];
      NonEmptyPicked(init);
      PicksNext(WithoutEmpty(init), init, m, x => x != "");
      assert s == init + [m];
    }
  }

  /** The newest messages are the last 25, or all if there are fewer. */
  lemma NewestAreLast(s: seq<Message>)
    ensures |Newest(s)| == (if |s| < 25 then |s| else 25) && s[|s| - |Newest(s)|..] == Newest(s)
  {
  }
}

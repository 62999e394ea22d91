/**
 broadcast/broadcast.go: the events of a hub's subscribers, each of whom has a stream that is a prefix of what was
 delivered on its channels since it subscribed, with no gap and no repeat, and all of it of one Listen.
 */
module Broadcast {
  import opened Options

  type Id = nat

  datatype Event = Event(channel: string, name: string, data: string)

  /** An event as it was delivered: of the listen-th time that the hub listened to its Store. */
  datatype Delivered = Delivered(event: Event, listen: nat)

  const BUFFER := 16

  /** A Go channel, of the events its reader has taken, and those that wait. */
  datatype Stream = Stream(channels: set<string>, taken: seq<Event>, waiting: seq<Event>, closed: bool)

  function Sent(s: Stream): seq<Event> {
    s.taken + s.waiting
  }

  /** The events of some channels, of those delivered. */
  function On(delivered: seq<Delivered>, channels: set<string>): seq<Event> {
    if delivered == [] then []
    else
      var before, last := On(delivered[..|delivered| - 1], channels), delivered[|delivered| - 1].event;
      if last.channel in channels then before + [last] else before
  }

  lemma OneMore(delivered: seq<Delivered>, since: nat, d: Delivered, channels: set<string>)
    requires since <= |delivered|
    ensures On((delivered + [d])[since..], channels) ==
            On(delivered[since..], channels) + if d.event.channel in channels then [d.event] else []
  {
    var more := (delivered + [d])[since..];
    assert more == delivered[since..] + [d];
    assert more[..|more| - 1] == delivered[since..];
  }

  /** What a stream is of: what was delivered from one place up to another. */
  datatype Span = Span(since: nat, until: nat)

  /** A stream has what was delivered on its channels in its span, and its span is of one Listen. */
  ghost predicate Right(s: Stream, span: Span, delivered: seq<Delivered>) {
    && span.since <= span.until <= |delivered| && |s.waiting| <= BUFFER
    && Sent(s) == On(delivered[span.since..span.until], s.channels)
    && forall i, j :: span.since <= i < j < span.until ==> delivered[i].listen == delivered[j].listen
  }

  /** A subscriber's stream is open, and is up to date, with nothing of a Listen before this one. */
  ghost predicate UpToDate(s: Stream, span: Span, delivered: seq<Delivered>, listen: nat) {
    && !s.closed && span.until == |delivered|
    && forall i :: span.since <= i < |delivered| ==> delivered[i].listen == listen
  }

  /** A stream that is not on an event's channel is left alone, and one that is has room for it. */
  predicate TakesIt(s: Stream, e: Event) {
    e.channel !in s.channels || |s.waiting| < BUFFER
  }

  lemma StaysRight(s: Stream, span: Span, delivered: seq<Delivered>, d: Delivered)
    requires Right(s, span, delivered)
    ensures Right(s, span, delivered + [d])
  {
    assert (delivered + [d])[span.since..span.until] == delivered[span.since..span.until];
  }

  /** A subscriber's stream once it has been handed an event: sent on, or left alone, or closed where there is no room. */
  function Handed(s: Stream, e: Event): Stream {
    if e.channel !in s.channels then s
    else if |s.waiting| < BUFFER then s.(waiting := s.waiting + [e])
    else s.(closed := true)
  }

  function HandedSpan(s: Stream, span: Span, e: Event, now: nat): Span {
    if TakesIt(s, e) then Span(span.since, now) else span
  }

  /** A stream that is handed an event is right, and is up to date unless it is closed. */
  lemma HandedRight(s: Stream, span: Span, delivered: seq<Delivered>, d: Delivered, listen: nat)
    requires Right(s, span, delivered) && UpToDate(s, span, delivered, listen) && d.listen == listen
    ensures var more := delivered + [d];
      var r, on := Handed(s, d.event), HandedSpan(s, span, d.event, |more|);
      Right(r, on, more) && if TakesIt(s, d.event) then UpToDate(r, on, more, listen) else r.closed
  {
    OneMore(delivered, span.since, d, s.channels);
    StaysRight(s, span, delivered, d);
    var more := delivered + [d];
    assert delivered[span.since..|delivered|] == delivered[span.since..] && more[span.since..|more|] == more[span.since..];
    assert s.taken + (s.waiting + [d.event]) == s.taken + s.waiting + [d.event];
  }

  class Hub {
    /** The subscribers, and all the streams there have been. */
    var subs: set<Id>
    var streams: map<Id, Stream>
    ghost var delivered: seq<Delivered>
    ghost var listen: nat
    ghost var spans: map<Id, Span>

    ghost predicate Valid()
      reads this
    {
      && streams.Keys == spans.Keys && subs <= streams.Keys
      && (forall id :: id in streams ==> Right(streams[id], spans[id], delivered))
      && (forall id :: id in subs ==> UpToDate(streams[id], spans[id], delivered, listen))
      && (forall id :: id in streams && id !in subs ==> streams[id].closed)
    }

    constructor ()
      ensures Valid() && subs == {} && streams == map[] && delivered == [] && listen == 0
    {
      subs, streams, delivered, listen, spans := {}, map[], [], 0, map[];
    }

    /** Sends on a Go channel that has room: it must not be closed. */
    method Send(id: Id, e: Event)
      requires id in streams && !streams[id].closed && |streams[id].waiting| < BUFFER
      modifies this`streams
      ensures streams == old(streams)[id := old(streams)[id].(waiting := old(streams)[id].waiting + [e])]
    {
      streams := streams[id := streams[id].(waiting := streams[id].waiting + [e])];
    }

    /** Closes a Go channel: it must not be closed already. */
    method Close(id: Id)
      requires id in streams && !streams[id].closed
      modifies this`streams
      ensures streams == old(streams)[id := old(streams)[id].(closed := true)]
    {
      streams := streams[id := streams[id].(closed := true)];
    }

    method Subscribe(id: Id, channels: set<string>)
      requires Valid() && id !in streams
      modifies this
      ensures Valid() && delivered == old(delivered) && listen == old(listen)
      ensures subs == old(subs) + {id} && streams == old(streams)[id := Stream(channels, [], [], false)]
      ensures spans == old(spans)[id := Span(|delivered|, |delivered|)]
    {
      streams := streams[id := Stream(channels, [], [], false)];
      spans := spans[id := Span(|delivered|, |delivered|)];
      subs := subs + {id};
      assert delivered[|delivered|..|delivered|] == [];
    }

    /** The reader takes the next event that waits. */
    method Take(id: Id) returns (e: Option<Event>)
      requires Valid() && id in streams
      modifies this
      ensures Valid() && delivered == old(delivered) && listen == old(listen) && subs == old(subs) && spans == old(spans)
      ensures var was := old(streams)[id];
        && (e.None? <==> was.waiting == [])
        && (e.None? ==> streams == old(streams))
        && (e.Some? ==> was.waiting[0] == e.value &&
                        streams == old(streams)[id := was.(taken := was.taken + [e.value], waiting := was.waiting[1..])])
    {
      var s := streams[id];
      if s.waiting == [] {
        return None;
      }
      e := Some(s.waiting[0]);
      var r := s.(taken := s.taken + [s.waiting[0]], waiting := s.waiting[1..]);
      assert Sent(r) == Sent(s);
      assert Right(r, spans[id], delivered) && (id in subs ==> UpToDate(r, spans[id], delivered, listen));
      streams := streams[id := r];
    }

    /** drop: closes a subscriber's stream, unless it is closed already. */
    method Drop(id: Id)
      requires Valid()
      modifies this
      ensures Valid() && delivered == old(delivered) && listen == old(listen) && spans == old(spans)
      ensures subs == old(subs) - {id}
      ensures streams == if id in old(subs) then old(streams)[id := old(streams)[id].(closed := true)] else old(streams)
    {
      if id in subs {
        subs := subs - {id};
        Close(id);
      }
    }

    /** deliver: an event to each subscriber to its channel; one that has fallen behind is dropped. */
    method Deliver(e: Event)
      requires Valid()
      modifies this
      ensures Valid() && delivered == old(delivered) + [Delivered(e, listen)] && listen == old(listen)
      ensures forall id :: id in subs <==> id in old(subs) && TakesIt(old(streams)[id], e)
      ensures streams.Keys == old(streams).Keys
      ensures forall id :: id in streams ==> streams[id] == if id in old(subs) then Handed(old(streams)[id], e) else old(streams)[id]
      ensures forall id :: id in streams ==> spans[id].since == old(spans)[id].since
    {
      ghost var all := delivered;
      delivered := delivered + [Delivered(e, listen)];
      HandAll(e);
      forall id | id in streams
        ensures Right(streams[id], spans[id], delivered)
        ensures if id in subs then UpToDate(streams[id], spans[id], delivered, listen) else streams[id].closed
      {
        if id in old(subs) {
          HandedRight(old(streams)[id], old(spans)[id], all, Delivered(e, listen), listen);
        } else {
          StaysRight(old(streams)[id], old(spans)[id], all, Delivered(e, listen));
        }
      }
    }

    method HandAll(e: Event)
      requires subs <= streams.Keys && streams.Keys == spans.Keys && forall id :: id in subs ==> !streams[id].closed
      modifies this`subs, this`streams, this`spans
      ensures streams.Keys == spans.Keys == old(streams).Keys
      ensures forall id :: id in subs <==> id in old(subs) && TakesIt(old(streams)[id], e)
      ensures forall id :: id in streams ==> streams[id] == if id in old(subs) then Handed(old(streams)[id], e) else old(streams)[id]
      ensures forall id :: id in streams ==>
                spans[id] == if id in old(subs) then HandedSpan(old(streams)[id], old(spans)[id], e, |delivered|) else old(spans)[id]
    {
      var left := subs;
      while left != {}
        invariant left <= subs && left <= old(subs) && streams.Keys == spans.Keys == old(streams).Keys
        invariant forall id :: id in subs <==> id in old(subs) && (id in left || TakesIt(old(streams)[id], e))
        invariant forall id :: id in streams ==>
                    streams[id] == if id in old(subs) && id !in left then Handed(old(streams)[id], e) else old(streams)[id]
        invariant forall id :: id in streams ==>
                    spans[id] == if id in old(subs) && id !in left then HandedSpan(old(streams)[id], old(spans)[id], e, |delivered|)
                                 else old(spans)[id]
        decreases |left|
      {
        var id :| id in left;
        left := left - {id};
        Hand(id, e);
      }
    }

    /** Hands an event to a subscriber, or drops it. */
    method Hand(id: Id, e: Event)
      requires id in subs && id in streams && id in spans && !streams[id].closed
      modifies this`subs, this`streams, this`spans
      ensures streams == old(streams)[id := Handed(old(streams)[id], e)]
      ensures spans == old(spans)[id := HandedSpan(old(streams)[id], old(spans)[id], e, |delivered|)]
      ensures subs == if TakesIt(old(streams)[id], e) then old(subs) else old(subs) - {id}
    {
      spans := spans[id := HandedSpan(streams[id], spans[id], e, |delivered|)];
      if e.channel !in streams[id].channels {
        assert streams[id := streams[id]] == streams;
        return;
      }
      if |streams[id].waiting| < BUFFER {
        Send(id, e);
      } else {
        subs := subs - {id};
        Close(id);
      }
    }

    /**
     The Store stops listening: every subscriber is dropped, as each may have missed an event, before it listens again; but
     none as Run returns, when its context is done.
     */
    method ListenStops(done: bool)
      requires Valid()
      modifies this
      ensures Valid() && delivered == old(delivered) && spans == old(spans)
      ensures done ==> listen == old(listen) && subs == old(subs) && streams == old(streams)
      ensures !done ==> listen == old(listen) + 1 && subs == {} && streams.Keys == old(streams).Keys
      ensures !done ==> forall id :: id in streams ==> streams[id] == old(streams)[id].(closed := true)
    {
      if done {
        return;
      }
      while subs != {}
        invariant Valid() && delivered == old(delivered) && listen == old(listen) && spans == old(spans)
        invariant subs <= old(subs) && streams.Keys == old(streams).Keys
        invariant forall id :: id in streams ==>
                    streams[id] == if id in old(subs) && id !in subs then old(streams)[id].(closed := true) else old(streams)[id]
        decreases |subs|
      {
        var id :| id in subs;
        Drop(id);
      }
      listen := listen + 1;
    }
  }

  lemma {:induction false} OnPrefix(delivered: seq<Delivered>, n: nat, channels: set<string>)
    requires n <= |delivered|
    ensures On(delivered[..n], channels) <= On(delivered, channels)
    decreases |delivered|
  {
    if n == |delivered| {
      assert delivered[..n] == delivered;
    } else {
      OnPrefix(delivered[..|delivered| - 1], n, channels);
      assert delivered[..|delivered| - 1][..n] == delivered[..n];
    }
  }

  /**
   In every state that a hub comes to, what a subscriber has taken is a prefix of the events delivered on its channels
   since it subscribed, and they are all of one Listen.
   */
  lemma TakenIsPrefix(hub: Hub, id: Id)
    requires hub.Valid() && id in hub.streams
    ensures var s, span := hub.streams[id], hub.spans[id];
      && span.since <= |hub.delivered| && s.taken <= On(hub.delivered[span.since..], s.channels)
      && exists n :: n <= |hub.delivered| && span.since <= n && s.taken <= On(hub.delivered[span.since..n], s.channels)
                     && forall i, j :: span.since <= i < j < n ==> hub.delivered[i].listen == hub.delivered[j].listen
  {
    var s, span := hub.streams[id], hub.spans[id];
    assert Right(s, span, hub.delivered);
    var after := hub.delivered[span.since..];
    OnPrefix(after, span.until - span.since, s.channels);
    assert after[..span.until - span.since] == hub.delivered[span.since..span.until];
    assert s.taken <= Sent(s);
  }
}

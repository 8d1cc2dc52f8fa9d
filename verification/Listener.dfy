/**
 The CONNECT listener: the loop that buffers the ClientHello, the routing decision, and the cap on
 concurrent connections.
 */
module Listener {
  import opened Basics
  import opened ClientHello
  import opened Scope

  const READ_CHUNK := 4096

  type Chunk = c: bytes | 0 < |c| <= READ_CHUNK witness [0]

  /** What one read of the client's stream can bring: bytes, end of stream, or a timeout or socket error. */
  datatype ReadEvent = Data(chunk: Chunk) | Closed | Failed

  datatype DropReason = TimedOut | ClosedEarly | MalformedHello

  datatype Route =
    | Drop(reason: DropReason)
    | Intercept(domain: string, port: int, prebuffered: bytes)
    | Relay(host: string, port: int, prebuffered: bytes)

  /** The bytes a client delivers, however they are cut into reads. */
  function Stream(events: seq<ReadEvent>): bytes {
    if events == [] || !events[0].Data? then [] else events[0].chunk + Stream(events[1..])
  }

  /** How the delivery ends; a client that sends nothing more runs into the timeout. */
  function Ending(events: seq<ReadEvent>): DropReason {
    if events == [] || events[0].Failed? then TimedOut
    else if events[0].Closed? then ClosedEarly
    else Ending(events[1..])
  }

  /** Reading stopped with the event that decided: the bytes of the events before it decide nothing. */
  ghost predicate StopsAtOnce(events: seq<ReadEvent>, rest: seq<ReadEvent>, buffer: bytes) {
    exists n: nat ::
      && 0 < n <= |events| && rest == events[n..] && buffer == Stream(events[..n])
      && Parse(Stream(events[..n - 1])).Incomplete?
  }

  lemma {:induction false} StreamSnoc(events: seq<ReadEvent>, n: nat)
    requires n < |events| && events[n].Data? && forall i | 0 <= i < n :: events[i].Data?
    ensures Stream(events[..n + 1]) == Stream(events[..n]) + events[n].chunk
  {
    if n > 0 {
      assert events[..n + 1][1..] == events[1..][..n] && events[..n][1..] == events[1..][..n - 1];
      StreamSnoc(events[1..], n - 1);
    } else {
      assert events[..1][1..] == [];
    }
  }

  lemma EmptyIsUndecided()
    ensures Parse([]).Incomplete?
  {
  }

  class ClientStream {
    var events: seq<ReadEvent>

    constructor (events: seq<ReadEvent>)
      ensures this.events == events
    {
      this.events := events;
    }

    method Read() returns (e: ReadEvent)
      modifies this
      ensures old(events) == [] ==> e == Failed && events == []
      ensures old(events) != [] ==> e == old(events)[0] && events == old(events)[1..]
    {
      if events == [] {
        return Failed;
      }
      e := events[0];
      events := events[1..];
    }
  }

  datatype Buffered = Undecided(reason: DropReason) | Decided(parsed: Parsed, buffer: bytes)

  class ProxyListener {
    const matcher: ScopeMatcher
    const targetAll: bool
    const maxConnections: int
    var activeConnections: int
    var loggedDomains: set<string>

    constructor (matcher: ScopeMatcher, targetAll: bool, maxConnections: int)
      ensures this.matcher == matcher && this.targetAll == targetAll && this.maxConnections == maxConnections
      ensures activeConnections == 0 && loggedDomains == {}
    {
      this.matcher, this.targetAll, this.maxConnections := matcher, targetAll, maxConnections;
      activeConnections, loggedDomains := 0, {};
    }

    /**
     The ClientHello read loop. Its outcome depends on the stream and not on how it was cut: what is
     decided is what the whole stream parses to, the buffer is what was read, and nothing is lost. The buffer
     is at most one byte short of the largest record, and one chunk.
     */
    method ReadClientHello(stream: ClientStream) returns (b: Buffered)
      modifies stream
      ensures var whole := Stream(old(stream.events));
              b.Undecided? <==> Parse(whole).Incomplete?
      ensures b.Undecided? ==> b.reason == Ending(old(stream.events))
      ensures b.Decided? ==> b.parsed == Parse(Stream(old(stream.events)))
      ensures b.Decided? ==> b.buffer + Stream(stream.events) == Stream(old(stream.events))
      ensures b.Decided? ==> !Parse(b.buffer).Incomplete? && |b.buffer| <= 69635
      ensures b.Decided? ==> StopsAtOnce(old(stream.events), stream.events, b.buffer)
    {
      hide Parse;
      EmptyIsUndecided();
      ghost var events, whole := stream.events, Stream(stream.events);
      ghost var n := 0;
      var buffer: bytes := [];
      while true
        invariant n <= |events| && stream.events == events[n..] && buffer == Stream(events[..n])
        invariant forall i | 0 <= i < n :: events[i].Data?
        invariant buffer + Stream(stream.events) == whole
        invariant Parse(buffer).Incomplete?
        invariant Ending(stream.events) == old(Ending(stream.events))
        decreases |stream.events|
      {
        ghost var before := buffer;
        ghost var rest := stream.events;
        var e := stream.Read();
        if e.Failed? {
          assert Stream(rest) == [] && buffer == whole;
          return Undecided(TimedOut);
        }
        if e.Closed? {
          assert Stream(rest) == [] && buffer == whole;
          return Undecided(ClosedEarly);
        }
        StreamSnoc(events, n);
        buffer := buffer + e.chunk;
        n := n + 1;
        assert buffer + Stream(stream.events) == whole;
        var result := ParseClientHello(buffer);
        UndecidedNeedsMore(before, e.chunk);
        if !result.Incomplete? {
          DecidedIsFinal(buffer, Stream(stream.events));
          return Decided(result, buffer);
        }
      }
    }

    /** The host name the routing goes by is in scope. */
    ghost predicate Accepts(parsed: Parsed)
      reads matcher
    {
      targetAll ||
      (parsed.Found? &&
       var host := NormalizeHostname(matcher.lib, parsed.sni);
       FirstHit(host, matcher.exactTargets, matcher.globTargets, matcher.regexTargets).Some?)
    }

    /**
     The route is decided by what the whole delivery parses to: dropped if that is undecided or malformed,
     else intercepted or relayed by scope. What is passed on and what is left unread are the delivery.
     */
    ghost predicate Routed(events: seq<ReadEvent>, host: string, port: int, route: Route, rest: seq<ReadEvent>)
      reads matcher
    {
      var parsed := Parse(Stream(events));
      && (parsed.Incomplete? <==> route == Drop(Ending(events)))
      && (parsed.Malformed? <==> route == Drop(MalformedHello))
      && (route.Drop? <==> parsed.Incomplete? || parsed.Malformed?)
      && (route.Intercept? <==> !route.Drop? && Accepts(parsed))
      && (route.Intercept? ==> route.port == port && route.domain == if parsed.Found? then parsed.sni else host)
      && (route.Relay? ==> route.port == port && route.host == host)
      && (!route.Drop? ==>
            && route.prebuffered + Stream(rest) == Stream(events)
            && !Parse(route.prebuffered).Incomplete? && |route.prebuffered| <= 69635
            && StopsAtOnce(events, rest, route.prebuffered))
    }

    /** `_process_connection` from the established tunnel on. */
    method ProcessConnect(stream: ClientStream, host: string, port: int) returns (route: Route)
      modifies stream, this`loggedDomains
      ensures Routed(old(stream.events), host, port, route, stream.events)
      ensures loggedDomains == old(loggedDomains) + (if route.Intercept? then {route.domain} else {})
    {
      hide Parse, StopsAtOnce, FirstHit, NormalizeHostname;
      assert Ending(stream.events) != MalformedHello by { EndingIsNotMalformed(stream.events); }
      var b := ReadClientHello(stream);
      if b.Undecided? {
        return Drop(b.reason);
      }
      if b.parsed.Malformed? {
        return Drop(MalformedHello);
      }
      var inScope := targetAll;
      if !targetAll && b.parsed.Found? {
        var m := matcher.Match(b.parsed.sni);
        inScope := m.matched;
      }
      if inScope {
        var domain := if b.parsed.Found? then b.parsed.sni else host;
        if domain !in loggedDomains {
          loggedDomains := loggedDomains + {domain};
        }
        return Intercept(domain, port, b.buffer);
      }
      return Relay(host, port, b.buffer);
    }

    /** `_handle_connection` for one connection running alone; `None` when it is turned away. */
    method HandleConnection(stream: ClientStream, host: string, port: int) returns (route: Option<Route>)
      modifies stream, this
      ensures activeConnections == old(activeConnections)
      ensures route.None? <==> old(activeConnections) >= maxConnections
      ensures route.None? ==> stream.events == old(stream.events) && loggedDomains == old(loggedDomains)
      ensures route.Some? ==> Routed(old(stream.events), host, port, route.value, stream.events)
    {
      hide Parse, StopsAtOnce, FirstHit, NormalizeHostname;
      if activeConnections >= maxConnections {
        return None;
      }
      activeConnections := activeConnections + 1;
      var r := ProcessConnect(stream, host, port);
      activeConnections := activeConnections - 1;
      return Some(r);
    }
  }

  lemma {:induction false} EndingIsNotMalformed(events: seq<ReadEvent>)
    ensures Ending(events) != MalformedHello
  {
    if events != [] {
      EndingIsNotMalformed(events[1..]);
    }
  }
}

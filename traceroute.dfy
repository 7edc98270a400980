/** The TTL sweep of src/traceroute.rs. The network is abstracted: what the receive loop of
    round `ttl` gets before its timeout is given as `inbox[ttl - 1]` (a round past the end of
    `inbox` receives nothing), and every datagram handed to `send_to` is recorded in a log. */
module Traceroute {
  import opened Wire
  import opened Icmp
  import opened Replies
  import opened Rounds

  /** src/config.rs: the destination, the number of probes per TTL and the round timeout in
      seconds. */
  datatype Config = Config(destination: Ipv4Addr, triesPerHop: nat, timeout: nat)

  /** `ttl as u8`. */
  function TtlByte(ttl: nat): byte
  {
    ttl % 256
  }

  /** The datagrams round `ttl` sends: `triesPerHop` probes in order, probe `i` being the
      datagram built for sequence number `((ttl - 1) * triesPerHop + i) as u16`. */
  function RoundDatagrams(dest: Ipv4Addr, ttl: nat, triesPerHop: nat): (probes: seq<seq<byte>>)
    requires 1 <= ttl
    ensures |probes| == triesPerHop
    ensures forall i :: 0 <= i < triesPerHop ==>
              probes[i] == ProbeBytes(dest, TtlByte(ttl), SequenceFor(ttl, triesPerHop, i))
              && IsProbe(probes[i], dest, TtlByte(ttl), SequenceFor(ttl, triesPerHop, i))
  {
    seq(triesPerHop, i requires 0 <= i < triesPerHop => ProbeBytes(dest, TtlByte(ttl), SequenceFor(ttl, triesPerHop, i)))
  }

  /** The datagrams of the first `rounds` rounds of a sweep, round by round. */
  function SweepDatagrams(config: Config, rounds: nat): (sent: seq<seq<seq<byte>>>)
    ensures |sent| == rounds
    ensures forall r :: 0 <= r < rounds ==> sent[r] == RoundDatagrams(config.destination, r + 1, config.triesPerHop)
  {
    seq(rounds, r requires 0 <= r => RoundDatagrams(config.destination, r + 1, config.triesPerHop))
  }

  lemma SweepDatagramsStep(config: Config, rounds: nat)
    ensures SweepDatagrams(config, rounds + 1)
            == SweepDatagrams(config, rounds) + [RoundDatagrams(config.destination, rounds + 1, config.triesPerHop)]
  {
  }

  /** send_requests: builds probe after probe in the shared buffers and sends each, in order of
      increasing probe index. The bytes no probe writes keep the zeros the buffers were
      allocated with, so every probe is the same datagram whatever the buffers held before. */
  method SendRequests(config: Config, ttl: nat, bufIp: array<byte>, bufIcmp: array<byte>)
    returns (sent: seq<seq<byte>>)
    requires 1 <= ttl
    requires bufIp.Length == IP_BUFFER_LEN && bufIcmp.Length == ICMP_BUFFER_LEN
    requires CleanIp(bufIp[..]) && CleanIcmp(bufIcmp[..])
    modifies bufIp, bufIcmp
    ensures CleanIp(bufIp[..]) && CleanIcmp(bufIcmp[..])
    ensures sent == RoundDatagrams(config.destination, ttl, config.triesPerHop)
  {
    sent := [];
    for i := 0 to config.triesPerHop
      invariant |sent| == i
      invariant CleanIp(bufIp[..]) && CleanIcmp(bufIcmp[..])
      invariant forall j :: 0 <= j < i ==>
                  sent[j] == ProbeBytes(config.destination, TtlByte(ttl), SequenceFor(ttl, config.triesPerHop, j))
    {
      CreateIcmpPacket(bufIp, bufIcmp, config.destination, TtlByte(ttl),
                       SequenceFor(ttl, config.triesPerHop, i));
      sent := sent + [bufIp[..]];
    }
  }

  /** What reaches the receive loop of round `ttl` before its timeout. */
  function RoundInbox(inbox: seq<seq<RawReply>>, ttl: nat): seq<RawReply>
    requires 1 <= ttl
  {
    if ttl - 1 < |inbox| then inbox[ttl - 1] else []
  }

  /** The receive loop of one round: each datagram is classified in arrival order and the
      interpreted ones are kept; the first malformed one panics. */
  function CollectReplies(raw: seq<RawReply>): (r: Result<seq<TraceHop>>)
    ensures r.Ok? <==> forall j :: 0 <= j < |raw| ==> ReceiveReply(raw[j]).Ok?
  {
    if raw == [] then Ok([])
    else
      var first := ReceiveReply(raw[0]);
      var rest := CollectReplies(raw[1..]);
      assert forall j :: 0 < j < |raw| ==> raw[j] == raw[1..][j - 1];
      if first.Panic? then Panic(first.message)
      else if rest.Panic? then rest
      else Ok(Kept(first.value) + rest.value)
  }

  /** When the receive loop does not panic, its replies are exactly the interpreted datagrams:
      every kept reply is the classification of a received datagram, and every datagram
      classified as a reply is kept. */
  lemma {:induction false} CollectMembers(raw: seq<RawReply>, h: TraceHop)
    requires CollectReplies(raw).Ok?
    ensures h in CollectReplies(raw).value <==> exists j :: 0 <= j < |raw| && ReceiveReply(raw[j]) == Ok(Some(h))
  {
    if raw != [] {
      CollectMembers(raw[1..], h);
      var first := ReceiveReply(raw[0]);
      assert CollectReplies(raw).value == Kept(first.value) + CollectReplies(raw[1..]).value;
      if exists j :: 0 < j < |raw| && ReceiveReply(raw[j]) == Ok(Some(h)) {
        var j :| 0 < j < |raw| && ReceiveReply(raw[j]) == Ok(Some(h));
        assert raw[1..][j - 1] == raw[j];
      }
      if exists j :: 0 <= j < |raw[1..]| && ReceiveReply(raw[1..][j]) == Ok(Some(h)) {
        var j :| 0 <= j < |raw[1..]| && ReceiveReply(raw[1..][j]) == Ok(Some(h));
        assert raw[1..][j] == raw[j + 1];
      }
    }
  }

  /** The receive loop keeps arrival order: the replies of a longer run are those of its first
      part followed by those of the rest, and a panic in the first part ends it. */
  lemma {:induction false} CollectAppend(a: seq<RawReply>, b: seq<RawReply>)
    ensures CollectReplies(a + b)
            == if CollectReplies(a).Panic? then CollectReplies(a) else Prepend(CollectReplies(a).value, CollectReplies(b))
  {
    if a == [] {
      assert a + b == b;
      PrependNothing(CollectReplies(b));
    } else {
      var ab := a + b;
      assert ab[0] == a[0] && ab[1..] == a[1..] + b;
      var first := ReceiveReply(a[0]);
      if first.Ok? {
        CollectAppend(a[1..], b);
        var restA := CollectReplies(a[1..]);
        if restA.Ok? {
          var head := Kept(first.value);
          assert CollectReplies(a) == Ok(head + restA.value);
          var rest := CollectReplies(b);
          if rest.Ok? {
            assert CollectReplies(ab) == Ok(head + (restA.value + rest.value));
            assert head + (restA.value + rest.value) == (head + restA.value) + rest.value;
          }
        }
      }
    }
  }

  /** `acc` followed by the replies of `r`, or the panic of `r`. */
  function Prepend(acc: seq<TraceHop>, r: Result<seq<TraceHop>>): Result<seq<TraceHop>>
  {
    match r
    case Ok(v) => Ok(acc + v)
    case Panic(m) => Panic(m)
  }

  lemma PrependNothing(r: Result<seq<TraceHop>>)
    ensures Prepend([], r) == r
  {
    if r.Ok? { assert [] + r.value == r.value; }
  }

  /** The replies an interpreted datagram contributes. */
  function Kept(o: Option<TraceHop>): seq<TraceHop>
  {
    if o.Some? then [o.value] else []
  }

  lemma CollectStep(raw: seq<RawReply>, j: nat, received: seq<TraceHop>)
    requires j < |raw| && ReceiveReply(raw[j]).Ok?
    ensures Prepend(received, CollectReplies(raw[j..]))
            == Prepend(received + Kept(ReceiveReply(raw[j]).value), CollectReplies(raw[j + 1..]))
  {
    assert raw[j..][0] == raw[j] && raw[j..][1..] == raw[j + 1..];
    var rest := CollectReplies(raw[j + 1..]);
    if rest.Ok? {
      var head := Kept(ReceiveReply(raw[j]).value);
      assert CollectReplies(raw[j..]) == Ok(head + rest.value);
      assert received + (head + rest.value) == (received + head) + rest.value;
    }
  }

  /** `replies.iter().any(|reply| reply.reply_type == IcmpTypes::EchoReply)`. */
  predicate DestinationReached(replies: seq<TraceHop>)
  {
    exists h :: h in replies && h.replyType == ECHO_REPLY
  }

  /** Whether the destination answered does not depend on how the replies are split or
      ordered: it holds of a concatenation exactly when it holds of one of the parts. */
  lemma DestinationReachedAppend(a: seq<TraceHop>, b: seq<TraceHop>)
    ensures DestinationReached(a + b) <==> DestinationReached(a) || DestinationReached(b)
    ensures DestinationReached(a) <==> exists i :: 0 <= i < |a| && a[i].replyType == ECHO_REPLY
  {
  }

  /** What a round decides: the destination answered (stop, push nothing), or go on with the
      hop result, if any. */
  datatype RoundOutcome = Reached | Continue(hop: Option<TraceHopResult>)

  /** One round of trace_route after its probes are sent: receive, filter, then either stop or
      aggregate. */
  function RunRound(config: Config, inbox: seq<seq<RawReply>>, ttl: nat): (r: Result<RoundOutcome>)
    requires 1 <= ttl
    ensures r == Ok(Reached) <==>
              CollectReplies(RoundInbox(inbox, ttl)).Ok?
              && DestinationReached(FilterOutUnhandledPackets(config.triesPerHop, ttl,
                                                              CollectReplies(RoundInbox(inbox, ttl)).value))
    ensures r.Ok? && r.value.Continue? && r.value.hop.Some? ==> r.value.hop.value.ttl == ttl
  {
    match CollectReplies(RoundInbox(inbox, ttl))
    case Panic(m) => Panic(m)
    case Ok(received) =>
      var replies := FilterOutUnhandledPackets(config.triesPerHop, ttl, received);
      if DestinationReached(replies) then Ok(Reached)
      else
        match AggregateRound(config.triesPerHop, ttl, replies)
        case Panic(m) => Panic(m)
        case Ok(hop) => Ok(Continue(hop))
  }

  /** An Echo Reply in the window of round `ttl` that the round receives, in a round whose
      receive loop does not panic, stops the sweep at that round. */
  lemma EchoReplyStopsRound(config: Config, inbox: seq<seq<RawReply>>, ttl: nat, j: nat, h: TraceHop)
    requires 1 <= ttl && CollectReplies(RoundInbox(inbox, ttl)).Ok?
    requires j < |RoundInbox(inbox, ttl)| && ReceiveReply(RoundInbox(inbox, ttl)[j]) == Ok(Some(h))
    requires h.replyType == ECHO_REPLY && InWindow(config.triesPerHop, ttl, h.sequenceNumber)
    ensures RunRound(config, inbox, ttl) == Ok(Reached)
  {
    var received := CollectReplies(RoundInbox(inbox, ttl)).value;
    CollectMembers(RoundInbox(inbox, ttl), h);
    assert h in FilterOutUnhandledPackets(config.triesPerHop, ttl, received);
  }

  /** The end of a sweep: the collected hop results and the value of `ttl` after the loop;
      "TTL value exceeded!" is printed exactly when it is above MAX_TTL. */
  datatype Trace = Trace(hopResults: seq<TraceHopResult>, finalTtl: nat)

  predicate TtlExceeded(t: Trace)
  {
    t.finalTtl > MAX_TTL
  }

  /** The outcomes of rounds 1 to MAX_TTL: `outs[t - 1]` is what round `t` decides. */
  type Outcomes = outs: seq<Result<RoundOutcome>> | |outs| == MAX_TTL
    witness seq(MAX_TTL, _ => Ok(Reached))

  function RoundOutcomes(config: Config, inbox: seq<seq<RawReply>>): (outs: Outcomes)
    ensures forall t {:trigger RunRound(config, inbox, t)} :: 1 <= t <= MAX_TTL ==> outs[t - 1] == RunRound(config, inbox, t)
  {
    seq(MAX_TTL, r requires 0 <= r => RunRound(config, inbox, r + 1))
  }

  /** The sweep from round `ttl` on, with the hop results `acc` pushed so far: a round that
      panics ends it, a round that reached the destination stops it, any other round pushes its
      hop result, if any, and the sweep goes on until `ttl` passes MAX_TTL. */
  function SweepFrom(outs: Outcomes, ttl: nat, acc: seq<TraceHopResult>): Result<Trace>
    requires 1 <= ttl <= MAX_TTL + 1
    decreases MAX_TTL + 1 - ttl
  {
    if ttl > MAX_TTL then Ok(Trace(acc, ttl))
    else
      match outs[ttl - 1]
      case Panic(m) => Panic(m)
      case Ok(Reached) => Ok(Trace(acc, ttl))
      case Ok(Continue(None)) => SweepFrom(outs, ttl + 1, acc)
      case Ok(Continue(Some(h))) => SweepFrom(outs, ttl + 1, acc + [h])
  }

  /** The whole sweep of trace_route. */
  function Sweep(config: Config, inbox: seq<seq<RawReply>>): Result<Trace>
  {
    SweepFrom(RoundOutcomes(config, inbox), 1, [])
  }

  /** How many rounds a finished sweep ran (and sent probes for). */
  function RoundsRun(t: Trace): nat
  {
    if t.finalTtl > MAX_TTL then MAX_TTL else t.finalTtl
  }

  /** The receive loop of one round (`loop { ... replies.push(hop) }`): classifies the
      datagrams in arrival order, keeping the interpreted ones, until the first one that panics. */
  method ReceiveRound(raw: seq<RawReply>) returns (r: Result<seq<TraceHop>>)
    ensures r == CollectReplies(raw)
  {
    var received: seq<TraceHop> := [];
    var j := 0;
    assert raw[j..] == raw;
    PrependNothing(CollectReplies(raw));
    while j < |raw|
      invariant 0 <= j <= |raw|
      invariant CollectReplies(raw) == Prepend(received, CollectReplies(raw[j..]))
    {
      var reply := ReceiveReply(raw[j]);
      if reply.Panic? {
        return Panic(reply.message);
      }
      CollectStep(raw, j, received);
      received := received + Kept(reply.value);
      j := j + 1;
    }
    assert raw[j..] == [] && received + [] == received;
    r := Ok(received);
  }

  /** The part of one iteration of trace_route's loop after sending: receive until the
      timeout, filter, stop if the destination answered, otherwise aggregate the round. */
  method SweepRound(config: Config, inbox: seq<seq<RawReply>>, ttl: nat, bufIp: array<byte>, bufIcmp: array<byte>)
    returns (probes: seq<seq<byte>>, decided: Result<RoundOutcome>)
    requires 1 <= ttl <= MAX_TTL
    requires bufIp.Length == IP_BUFFER_LEN && bufIcmp.Length == ICMP_BUFFER_LEN
    requires CleanIp(bufIp[..]) && CleanIcmp(bufIcmp[..])
    modifies bufIp, bufIcmp
    ensures CleanIp(bufIp[..]) && CleanIcmp(bufIcmp[..])
    ensures probes == RoundDatagrams(config.destination, ttl, config.triesPerHop)
    ensures decided == RoundOutcomes(config, inbox)[ttl - 1]
  {
    probes := SendRequests(config, ttl, bufIp, bufIcmp);
    assert RoundOutcomes(config, inbox)[ttl - 1] == RunRound(config, inbox, ttl);
    var received := ReceiveRound(RoundInbox(inbox, ttl));
    if received.Panic? {
      return probes, Panic(received.message);
    }
    var replies := FilterOutUnhandledPackets(config.triesPerHop, ttl, received.value);
    if DestinationReached(replies) {
      return probes, Ok(Reached);
    }
    var hop := AggregateRound(config.triesPerHop, ttl, replies);
    if hop.Panic? {
      return probes, Panic(hop.message);
    }
    decided := Ok(Continue(hop.value));
  }

  /** trace_route, with the transport abstracted: the result of the sweep (or the panic that
      ends it) and the datagrams sent, round by round. */
  method TraceRoute(config: Config, inbox: seq<seq<RawReply>>)
    returns (outcome: Result<Trace>, sent: seq<seq<seq<byte>>>)
    ensures outcome == Sweep(config, inbox)
    ensures |sent| <= MAX_TTL
    ensures sent == SweepDatagrams(config, |sent|)
    ensures outcome.Ok? ==> |sent| == RoundsRun(outcome.value)
  {
    ghost var outs := RoundOutcomes(config, inbox);
    ghost var goal := SweepFrom(outs, 1, []);
    var ttl: nat := 1;
    var bufIp := new byte[IP_BUFFER_LEN](_ => 0);
    var bufIcmp := new byte[ICMP_BUFFER_LEN](_ => 0);
    assert CleanIp(bufIp[..]) && CleanIcmp(bufIcmp[..]) by {
      assert forall j :: 0 <= j < IP_BUFFER_LEN ==> bufIp[..][j] == 0;
      assert forall j :: 0 <= j < ICMP_BUFFER_LEN ==> bufIcmp[..][j] == 0;
    }
    var hopResults: seq<TraceHopResult> := [];
    sent := [];

    while ttl <= MAX_TTL
      invariant 1 <= ttl <= MAX_TTL + 1
      invariant |sent| == ttl - 1
      invariant sent == SweepDatagrams(config, ttl - 1)
      invariant CleanIp(bufIp[..]) && CleanIcmp(bufIcmp[..])
      invariant goal == SweepFrom(outs, ttl, hopResults)
      decreases MAX_TTL + 1 - ttl
    {
      var probes, decided := SweepRound(config, inbox, ttl, bufIp, bufIcmp);
      SweepDatagramsStep(config, ttl - 1);
      sent := sent + [probes];
      assert outs[ttl - 1] == decided;
      if decided.Panic? {
        outcome := Panic(decided.message);
        return;
      }
      if decided.value.Reached? {
        break;
      }
      SweepFromContinue(outs, ttl, hopResults);
      hopResults := hopResults + HopList(decided.value.hop);
      ttl := ttl + 1;
    }
    outcome := Ok(Trace(hopResults, ttl));
  }

  /** The hop result a round contributes, as a sequence. */
  function HopList(hop: Option<TraceHopResult>): seq<TraceHopResult>
  {
    if hop.Some? then [hop.value] else []
  }

  lemma SweepFromContinue(outs: Outcomes, ttl: nat, acc: seq<TraceHopResult>)
    requires 1 <= ttl <= MAX_TTL && outs[ttl - 1].Ok? && outs[ttl - 1].value.Continue?
    ensures SweepFrom(outs, ttl, acc) == SweepFrom(outs, ttl + 1, acc + HopList(outs[ttl - 1].value.hop))
  {
    if outs[ttl - 1].value.hop.None? {
      assert acc + [] == acc;
    }
  }

  /** Round `t` neither panicked nor reached the destination, so the sweep went on after it. */
  predicate Continues(outs: Outcomes, t: nat)
    requires 1 <= t <= MAX_TTL
  {
    outs[t - 1].Ok? && outs[t - 1].value.Continue?
  }

  /** Round `t` panicked, which ends trace_route. */
  predicate Panics(outs: Outcomes, t: nat)
    requires 1 <= t <= MAX_TTL
  {
    outs[t - 1].Panic?
  }

  /** Where the sweep stops: after running every round from `ttl` on that continued, either at
      the first round that reached the destination, or with `ttl == MAX_TTL + 1`; a panicking
      sweep panicked in some round after all earlier ones continued. */
  lemma {:induction false} SweepTermination(outs: Outcomes, ttl: nat, acc: seq<TraceHopResult>)
    requires 1 <= ttl <= MAX_TTL + 1
    ensures var r := SweepFrom(outs, ttl, acc);
            r.Ok? ==>
              ttl <= r.value.finalTtl <= MAX_TTL + 1
              && (forall t :: ttl <= t < r.value.finalTtl ==> Continues(outs, t))
              && (r.value.finalTtl <= MAX_TTL ==> outs[r.value.finalTtl - 1] == Ok(Reached))
    ensures var r := SweepFrom(outs, ttl, acc);
            r.Panic? ==>
              exists t :: ttl <= t <= MAX_TTL && Panics(outs, t)
                          && forall t' :: ttl <= t' < t ==> Continues(outs, t')
    decreases MAX_TTL + 1 - ttl
  {
    if ttl <= MAX_TTL {
      match outs[ttl - 1]
      case Panic(_) =>
        assert Panics(outs, ttl);
      case Ok(Reached) =>
      case Ok(Continue(None)) =>
        SweepTermination(outs, ttl + 1, acc);
      case Ok(Continue(Some(h))) =>
        SweepTermination(outs, ttl + 1, acc + [h]);
    }
  }

  /** Round `t` reached the destination, which stops trace_route. */
  predicate ReachedAt(outs: Outcomes, t: nat)
    requires 1 <= t <= MAX_TTL
  {
    outs[t - 1] == Ok(Reached)
  }

  /** A sweep from round 1 that did not panic stopped at the first round that reached the
      destination, and ran past MAX_TTL exactly when none did. */
  lemma StopsAtFirstReached(outs: Outcomes)
    requires SweepFrom(outs, 1, []).Ok?
    ensures var trace := SweepFrom(outs, 1, []).value;
            TtlExceeded(trace) <==> forall t :: 1 <= t <= MAX_TTL ==> !ReachedAt(outs, t)
    ensures var trace := SweepFrom(outs, 1, []).value;
            !TtlExceeded(trace) ==>
              1 <= trace.finalTtl && ReachedAt(outs, trace.finalTtl)
              && forall t :: 1 <= t < trace.finalTtl ==> !ReachedAt(outs, t)
  {
    SweepTermination(outs, 1, []);
    var trace := SweepFrom(outs, 1, []).value;
    forall t | 1 <= t < trace.finalTtl && t <= MAX_TTL
      ensures !ReachedAt(outs, t)
    {
      assert Continues(outs, t);
    }
    if !TtlExceeded(trace) {
      assert ReachedAt(outs, trace.finalTtl);
    }
  }

  /** "TTL value exceeded!" is printed exactly when no round from 1 to MAX_TTL reached the
      destination; otherwise the sweep stopped at the first round whose filtered replies include
      an Echo Reply. */
  lemma TtlExceededIffNeverReached(config: Config, inbox: seq<seq<RawReply>>)
    requires Sweep(config, inbox).Ok?
    ensures var trace := Sweep(config, inbox).value;
            TtlExceeded(trace) <==> forall t :: 1 <= t <= MAX_TTL ==> RunRound(config, inbox, t) != Ok(Reached)
    ensures var trace := Sweep(config, inbox).value;
            !TtlExceeded(trace) ==>
              1 <= trace.finalTtl && RunRound(config, inbox, trace.finalTtl) == Ok(Reached)
              && forall t :: 1 <= t < trace.finalTtl ==> RunRound(config, inbox, t) != Ok(Reached)
  {
    var outs := RoundOutcomes(config, inbox);
    StopsAtFirstReached(outs);
    assert forall t :: 1 <= t <= MAX_TTL ==> (ReachedAt(outs, t) <==> RunRound(config, inbox, t) == Ok(Reached));
  }

  /** Hop results in strictly increasing TTL order: at most one per TTL. */
  predicate Increasing(results: seq<TraceHopResult>)
  {
    forall i, j :: 0 <= i < j < |results| ==> results[i].ttl < results[j].ttl
  }

  /** Round `t` went on and produced the hop result `h`. */
  predicate ProducedAt(outs: Outcomes, t: nat, h: TraceHopResult)
    requires 1 <= t <= MAX_TTL
  {
    outs[t - 1] == Ok(Continue(Some(h)))
  }

  /** Every hop result a round produces is labelled with that round's TTL. */
  ghost predicate Labelled(outs: Outcomes)
  {
    forall t, h :: 1 <= t <= MAX_TTL && ProducedAt(outs, t, h) ==> h.ttl == t
  }

  /** The hop result round `t` produced, if it went on and produced one. */
  function HopAt(outs: Outcomes, t: nat): (o: Option<TraceHopResult>)
    requires 1 <= t <= MAX_TTL
    ensures forall h :: o == Some(h) <==> ProducedAt(outs, t, h)
  {
    if outs[t - 1].Ok? && outs[t - 1].value.Continue? then outs[t - 1].value.hop else None
  }

  /** The hop results rounds `lo` to `hi - 1` produced, in round order. */
  function Produced(outs: Outcomes, lo: nat, hi: nat): seq<TraceHopResult>
    requires 1 <= lo <= hi <= MAX_TTL + 1
    decreases hi - lo
  {
    if lo == hi then []
    else (if HopAt(outs, lo).Some? then [HopAt(outs, lo).value] else []) + Produced(outs, lo + 1, hi)
  }

  /** A sweep from round `ttl` that did not panic adds to `acc` exactly the hop results that the
      rounds it went through produced. */
  lemma {:induction false} SweepCollects(outs: Outcomes, ttl: nat, acc: seq<TraceHopResult>)
    requires 1 <= ttl <= MAX_TTL + 1
    ensures var r := SweepFrom(outs, ttl, acc);
            r.Ok? ==> ttl <= r.value.finalTtl <= MAX_TTL + 1
                      && r.value.hopResults == acc + Produced(outs, ttl, r.value.finalTtl)
    decreases MAX_TTL + 1 - ttl
  {
    if ttl <= MAX_TTL {
      match outs[ttl - 1]
      case Panic(_) =>
      case Ok(Reached) =>
      case Ok(Continue(None)) =>
        SweepCollects(outs, ttl + 1, acc);
      case Ok(Continue(Some(h))) =>
        SweepCollects(outs, ttl + 1, acc + [h]);
        var r := SweepFrom(outs, ttl + 1, acc + [h]);
        if r.Ok? {
          assert Produced(outs, ttl, r.value.finalTtl) == [h] + Produced(outs, ttl + 1, r.value.finalTtl);
        }
    }
  }

  /** `res` is in increasing TTL order, and each of its entries is the result its round, between
      `lo` and `hi - 1`, produced. */
  predicate OrderedResults(outs: Outcomes, lo: nat, hi: nat, res: seq<TraceHopResult>)
    requires 1 <= lo <= hi <= MAX_TTL + 1
  {
    Increasing(res)
    && forall i :: 0 <= i < |res| ==> lo <= res[i].ttl < hi && ProducedAt(outs, res[i].ttl, res[i])
  }

  /** The results rounds `lo` to `hi - 1` produced are in increasing TTL order when every round
      labels its result with its TTL, and each is the one its round produced. */
  lemma {:induction false} ProducedOrdered(outs: Outcomes, lo: nat, hi: nat)
    requires 1 <= lo <= hi <= MAX_TTL + 1 && Labelled(outs)
    ensures OrderedResults(outs, lo, hi, Produced(outs, lo, hi))
    decreases hi - lo
  {
    if lo < hi {
      ProducedOrdered(outs, lo + 1, hi);
      var o := HopAt(outs, lo);
      var rest := Produced(outs, lo + 1, hi);
      if o.Some? {
        assert o.value.ttl == lo;
        assert Produced(outs, lo, hi) == [o.value] + rest;
        OrderedCons(outs, lo, hi, o.value, rest);
      } else {
        assert Produced(outs, lo, hi) == rest;
        OrderedWiden(outs, lo, hi, rest);
      }
    }
  }

  /** Round `lo`'s result, labelled `lo`, goes in front of the ordered results of later rounds. */
  lemma OrderedCons(outs: Outcomes, lo: nat, hi: nat, h: TraceHopResult, rest: seq<TraceHopResult>)
    requires 1 <= lo < hi <= MAX_TTL + 1
    requires OrderedResults(outs, lo + 1, hi, rest) && ProducedAt(outs, lo, h) && h.ttl == lo
    ensures OrderedResults(outs, lo, hi, [h] + rest)
  {
    var res := [h] + rest;
    forall i | 0 <= i < |res|
      ensures lo <= res[i].ttl < hi && ProducedAt(outs, res[i].ttl, res[i])
    {
      if i > 0 {
        assert res[i] == rest[i - 1];
      }
    }
    forall i, j | 0 <= i < j < |res|
      ensures res[i].ttl < res[j].ttl
    {
      assert res[j] == rest[j - 1];
      if i > 0 {
        assert res[i] == rest[i - 1];
      }
    }
  }

  /** Results ordered within rounds `lo + 1` to `hi - 1` are ordered within `lo` to `hi - 1`. */
  lemma OrderedWiden(outs: Outcomes, lo: nat, hi: nat, rest: seq<TraceHopResult>)
    requires 1 <= lo < hi <= MAX_TTL + 1
    requires OrderedResults(outs, lo + 1, hi, rest)
    ensures OrderedResults(outs, lo, hi, rest)
  {
  }

  /** Every result a round from `lo` to `hi - 1` produced is among them. */
  lemma {:induction false} ProducedComplete(outs: Outcomes, lo: nat, hi: nat, t: nat, h: TraceHopResult)
    requires 1 <= lo <= t < hi <= MAX_TTL + 1 && ProducedAt(outs, t, h)
    ensures h in Produced(outs, lo, hi)
    decreases hi - lo
  {
    if t > lo {
      ProducedComplete(outs, lo + 1, hi, t, h);
    } else {
      assert HopAt(outs, lo) == Some(h);
    }
  }

  /** The hop results of a sweep from round 1 that did not panic: in strictly increasing TTL
      order, each produced by its own round before the sweep ended, and none missing. */
  lemma HopResultsOf(outs: Outcomes)
    requires Labelled(outs) && SweepFrom(outs, 1, []).Ok?
    ensures var trace := SweepFrom(outs, 1, []).value;
            var res := trace.hopResults;
            Increasing(res)
            && (forall i :: 0 <= i < |res| ==>
                  1 <= res[i].ttl <= MAX_TTL && res[i].ttl < trace.finalTtl
                  && ProducedAt(outs, res[i].ttl, res[i]))
            && (forall t, h :: 1 <= t < trace.finalTtl && t <= MAX_TTL && ProducedAt(outs, t, h)
                  ==> h in res)
  {
    SweepCollects(outs, 1, []);
    var trace := SweepFrom(outs, 1, []).value;
    assert trace.hopResults == Produced(outs, 1, trace.finalTtl);
    ProducedOrdered(outs, 1, trace.finalTtl);
    forall t, h | 1 <= t < trace.finalTtl && t <= MAX_TTL && ProducedAt(outs, t, h)
      ensures h in trace.hopResults
    {
      ProducedComplete(outs, 1, trace.finalTtl, t, h);
    }
  }

  /** Every hop result RunRound produces carries the TTL of its round. */
  lemma RoundOutcomesLabelled(config: Config, inbox: seq<seq<RawReply>>)
    ensures Labelled(RoundOutcomes(config, inbox))
  {
    var outs := RoundOutcomes(config, inbox);
    forall t, h | 1 <= t <= MAX_TTL && ProducedAt(outs, t, h)
      ensures h.ttl == t
    {
      assert outs[t - 1] == RunRound(config, inbox, t);
    }
  }

  /** The whole sweep: its hop results are in strictly increasing TTL order, each TTL between 1
      and MAX_TTL, each the result its own round produced, and every round that produced one
      before the sweep ended is there. */
  lemma HopResultsOrdered(config: Config, inbox: seq<seq<RawReply>>)
    requires Sweep(config, inbox).Ok?
    ensures var trace := Sweep(config, inbox).value;
            var res := trace.hopResults;
            Increasing(res)
            && (forall i :: 0 <= i < |res| ==>
                  1 <= res[i].ttl <= MAX_TTL && res[i].ttl < trace.finalTtl
                  && RunRound(config, inbox, res[i].ttl) == Ok(Continue(Some(res[i]))))
            && (forall t, h :: 1 <= t < trace.finalTtl && t <= MAX_TTL
                  && RunRound(config, inbox, t) == Ok(Continue(Some(h)))
                  ==> h in res)
  {
    var outs := RoundOutcomes(config, inbox);
    RoundOutcomesLabelled(config, inbox);
    HopResultsOf(outs);
    var trace := Sweep(config, inbox).value;
    var res := trace.hopResults;
    forall i | 0 <= i < |res|
      ensures RunRound(config, inbox, res[i].ttl) == Ok(Continue(Some(res[i])))
    {
      assert ProducedAt(outs, res[i].ttl, res[i]);
    }
    forall t, h | 1 <= t < trace.finalTtl && t <= MAX_TTL && RunRound(config, inbox, t) == Ok(Continue(Some(h)))
      ensures h in res
    {
      assert ProducedAt(outs, t, h);
    }
  }

  /** Correlation end to end: a router's Time Exceeded message for probe `i` of round `ttl`
      is classified with that probe's sequence number and survives the filter of round `ttl'`
      exactly when `ttl' == ttl`, as long as the sequence numbers do not wrap. */
  lemma TimeExceededCountsForItsRound(config: Config, ttl: nat, i: nat, probe: seq<byte>,
                                      outer: seq<byte>, header: seq<byte>, quotedIp: seq<byte>,
                                      rest: seq<byte>, host: IpAddr, elapsed: nat, ttl': nat)
    requires 1 <= ttl <= MAX_TTL && 1 <= ttl' <= MAX_TTL
    requires i < config.triesPerHop && MAX_TTL * config.triesPerHop <= 0x1_0000
    requires IsProbe(probe, config.destination, TtlByte(ttl), SequenceFor(ttl, config.triesPerHop, i))
    requires |outer| == REPLY_ICMP_OFFSET && |header| == 8 && header[0] == TIME_EXCEEDED
    requires |quotedIp| == 20
    ensures var hop := ReceiveReply(RawReply(outer + header + quotedIp
                                             + probe[PAYLOAD_OFFSET..PAYLOAD_OFFSET + 8] + rest,
                                             host, elapsed));
            hop.Ok? && hop.value.Some?
            && (FilterOutUnhandledPackets(config.triesPerHop, ttl', [hop.value.value]) == [hop.value.value]
                <==> ttl' == ttl)
  {
    var sequence := SequenceFor(ttl, config.triesPerHop, i);
    TimeExceededQuotesProbe(probe, config.destination, TtlByte(ttl), sequence,
                            outer, header, quotedIp, rest, host, elapsed);
    WindowsDisjoint(ttl, ttl', config.triesPerHop, i);
    var h := TraceHop(host, elapsed, TIME_EXCEEDED, sequence);
    assert [h][1..] == [];
  }
}

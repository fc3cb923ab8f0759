/** The APRS-IS session of `APRSBeacon` and its beacon loops: connecting
    with fail-over through the configured servers, sending a packet with
    reconnect on demand, disconnecting, starting and stopping, and the
    body of `beacon_main_station` / `beacon_object`.

    The state the methods change is the `running` flag, the socket (held
    as the position, in the server list, of the server it is logged in to)
    and the record of every line a socket accepted.  What the servers do
    is given to each call as data: one `Attempt` per configured server for
    a call that may connect, and whether the packet write succeeds. */
module BeaconService {
  import opened Text
  import opened Packets
  import opened Config
  import opened Login

  /** The socket and the lines written so far. */
  datatype Session = Session(socket: Option<nat>, wire: seq<Write>)

  /** A new session state and the method's boolean result. */
  datatype Step = Step(session: Session, ok: bool)

  /** `connect_aprs_is`: try the servers in order, log in to the first that
      accepts; on success the socket stays on it.  Every attempt replaces
      the socket, so only an empty server list leaves it as it was. */
  function AfterConnect(s: Session, test: AcceptTest, network: seq<Attempt>, line: string): (r: Step)
    ensures r.ok <==> exists j :: 0 <= j < |network| && Accepted(test, network[j])
    ensures r.ok ==> r.session.socket.Some? && r.session.socket.value < |network|
    ensures r.ok ==> r.session.socket == FirstAccepted(test, network)
    ensures !r.ok && network != [] ==> r.session.socket.None?
    ensures network == [] ==> r.session == s
    ensures |s.wire| <= |r.session.wire| <= |s.wire| + |network| && r.session.wire[..|s.wire|] == s.wire
  {
    var k := FirstAccepted(test, network);
    var w := s.wire + LoginTraffic(network[..Tried(test, network)], line);
    assert w[..|s.wire|] == s.wire;
    Step(Session(if network == [] then s.socket else k, w), k.Some?)
  }

  /** The session after trying the first `i` servers, none of which
      accepted: the socket of the last attempt was dropped, and their
      login lines are written. */
  function Trying(s: Session, network: seq<Attempt>, line: string, i: nat): Session
    requires i <= |network|
  {
    Session(if i == 0 then s.socket else None, s.wire + LoginTraffic(network[..i], line))
  }

  /** Trying a server that does not accept drops its socket and adds its
      login line when it took one. */
  lemma TryingStep(s: Session, network: seq<Attempt>, line: string, i: nat)
    requires i < |network|
    ensures Trying(s, network, line, i + 1)
      == Session(None, Trying(s, network, line, i).wire + (if network[i].Responds? then [Write(i, line)] else []))
  {
    LoginTrafficStep(network, i, line);
  }

  /** A connect that settles on server `i` has written the login lines of
      the servers before it and then its own. */
  lemma ConnectSettles(s: Session, test: AcceptTest, network: seq<Attempt>, line: string, i: nat)
    requires i < |network| && Accepted(test, network[i])
    requires forall j :: 0 <= j < i ==> !Accepted(test, network[j])
    ensures AfterConnect(s, test, network, line)
      == Step(Session(Some(i), Trying(s, network, line, i).wire + [Write(i, line)]), true)
  {
    FirstAcceptedAt(test, network, i);
    LoginTrafficStep(network, i, line);
  }

  /** A connect that no server accepts has tried them all, and leaves no
      socket unless there was no server to try. */
  lemma ConnectRefused(s: Session, test: AcceptTest, network: seq<Attempt>, line: string)
    requires forall j :: 0 <= j < |network| ==> !Accepted(test, network[j])
    ensures AfterConnect(s, test, network, line) == Step(Trying(s, network, line, |network|), false)
  {
    assert network[..|network|] == network;
  }

  /** The line `send_packet` writes for a packet. */
  function PacketLine(packet: string): string {
    packet + "\r\n"
  }

  /** `send_packet`: nothing happens in a dry run; otherwise connect when
      there is no socket, then write the packet; a failed write drops the
      socket. */
  function AfterSend(s: Session, test: AcceptTest, dryRun: bool, line: string, packet: string,
                     network: seq<Attempt>, writeOk: bool): (r: Step)
    ensures r.ok <==> dryRun || (writeOk && (s.socket.Some? || exists j :: 0 <= j < |network| && Accepted(test, network[j])))
    ensures !r.ok ==> r.session.socket.None?
    ensures |s.wire| <= |r.session.wire| && r.session.wire[..|s.wire|] == s.wire
    ensures r.ok && !dryRun ==> (&& r.session.socket.Some? && |s.wire| < |r.session.wire|
                                 && r.session.wire[|r.session.wire| - 1] == Write(r.session.socket.value, PacketLine(packet)))
  {
    if dryRun then Step(s, true)
    else
      var c := if s.socket.Some? then Step(s, true) else AfterConnect(s, test, network, line);
      if !c.ok then c
      else if writeOk then
        Step(Session(c.session.socket, c.session.wire + [Write(c.session.socket.value, PacketLine(packet))]), true)
      else Step(Session(None, c.session.wire), false)
  }

  /** `after` is `before` followed by login lines and packet lines only. */
  predicate OnlyBeaconTraffic(before: seq<Write>, after: seq<Write>, line: string, packet: string) {
    && |before| <= |after| && after[..|before|] == before
    && forall j :: |before| <= j < |after| ==> after[j].data == line || after[j].data == PacketLine(packet)
  }

  /** Appending more beacon traffic keeps a wire beacon traffic. */
  lemma OnlyBeaconTrafficChain(a: seq<Write>, b: seq<Write>, c: seq<Write>, line: string, packet: string)
    requires OnlyBeaconTraffic(a, b, line, packet) && OnlyBeaconTraffic(b, c, line, packet)
    ensures OnlyBeaconTraffic(a, c, line, packet)
  {
    assert c[..|a|] == c[..|b|][..|a|];
  }

  /** Whatever the outcome, a send adds only login lines and its packet
      line to the wire. */
  lemma SendTraffic(s: Session, test: AcceptTest, dryRun: bool, line: string, packet: string, network: seq<Attempt>, writeOk: bool)
    ensures OnlyBeaconTraffic(s.wire, AfterSend(s, test, dryRun, line, packet, network, writeOk).session.wire, line, packet)
  {
    if !dryRun {
      if AfterSend(s, test, false, line, packet, network, writeOk).ok {
        SendSuccess(s, test, line, packet, network, writeOk);
      } else {
        SendFailure(s, test, line, packet, network, writeOk);
      }
    }
  }

  /** In a dry run nothing connects and nothing is written. */
  lemma DryRunSendsNothing(s: Session, test: AcceptTest, line: string, packet: string, network: seq<Attempt>, writeOk: bool)
    ensures AfterSend(s, test, true, line, packet, network, writeOk) == Step(s, true)
  {
  }

  /** A successful send leaves a socket, and writes the packet line exactly
      once, last, after nothing but login lines. */
  lemma SendSuccess(s: Session, test: AcceptTest, line: string, packet: string, network: seq<Attempt>, writeOk: bool)
    requires AfterSend(s, test, false, line, packet, network, writeOk).ok
    ensures var r := AfterSend(s, test, false, line, packet, network, writeOk).session;
      && writeOk && r.socket.Some?
      && |s.wire| < |r.wire| && r.wire[..|s.wire|] == s.wire
      && r.wire[|r.wire| - 1] == Write(r.socket.value, PacketLine(packet))
      && forall j :: |s.wire| <= j < |r.wire| - 1 ==> r.wire[j].data == line
  {
    var r := AfterSend(s, test, false, line, packet, network, writeOk).session;
    if s.socket.None? {
      var c := AfterConnect(s, test, network, line);
      var login := LoginTraffic(network[..Tried(test, network)], line);
      assert c.session.wire == s.wire + login;
      assert r.wire == s.wire + login + [Write(r.socket.value, PacketLine(packet))];
    } else {
      assert r.wire == s.wire + [Write(r.socket.value, PacketLine(packet))];
    }
  }

  /** A failed send leaves no socket and writes no packet line: at most the
      login lines of a reconnect. */
  lemma SendFailure(s: Session, test: AcceptTest, line: string, packet: string, network: seq<Attempt>, writeOk: bool)
    requires !AfterSend(s, test, false, line, packet, network, writeOk).ok
    ensures var r := AfterSend(s, test, false, line, packet, network, writeOk).session;
      && r.socket.None?
      && |s.wire| <= |r.wire| && r.wire[..|s.wire|] == s.wire
      && forall j :: |s.wire| <= j < |r.wire| ==> r.wire[j].data == line
  {
    var r := AfterSend(s, test, false, line, packet, network, writeOk).session;
    if s.socket.None? {
      var login := LoginTraffic(network[..Tried(test, network)], line);
      assert r.wire == s.wire + login;
    } else {
      assert r.wire == s.wire;
    }
  }

  /** With a socket already open, a send does not log in again: it succeeds
      exactly when the write does, and writes at most the packet line. */
  lemma SendOnOpenSocket(s: Session, test: AcceptTest, line: string, packet: string, network: seq<Attempt>, writeOk: bool)
    requires s.socket.Some?
    ensures var r := AfterSend(s, test, false, line, packet, network, writeOk);
      && (r.ok <==> writeOk)
      && r.session.wire == s.wire + (if writeOk then [Write(s.socket.value, PacketLine(packet))] else [])
      && r.session.socket == (if writeOk then s.socket else None)
  {
  }

  /** Without a socket, a send succeeds exactly when some server accepts
      the login and the write succeeds, and then the socket is on the
      first server that accepts. */
  lemma SendReconnects(s: Session, test: AcceptTest, line: string, packet: string, network: seq<Attempt>, writeOk: bool)
    requires s.socket.None?
    ensures var r := AfterSend(s, test, false, line, packet, network, writeOk);
      && (r.ok <==> writeOk && exists j :: 0 <= j < |network| && Accepted(test, network[j]))
      && (r.ok ==> r.session.socket == FirstAccepted(test, network))
  {
  }

  /** A connect logs in to no server after the one it settles on: every
      login line goes to a server at or before it. */
  lemma ConnectStopsAtFirstAccepted(s: Session, test: AcceptTest, network: seq<Attempt>, line: string)
    requires AfterConnect(s, test, network, line).ok
    ensures var r := AfterConnect(s, test, network, line).session;
      forall j :: |s.wire| <= j < |r.wire| ==> r.wire[j].server <= r.socket.value && r.wire[j].data == line
  {
    var r := AfterConnect(s, test, network, line).session;
    var login := LoginTraffic(network[..Tried(test, network)], line);
    assert r.wire == s.wire + login;
    assert forall j :: |s.wire| <= j < |r.wire| ==> r.wire[j] == login[j - |s.wire|];
  }

  /** Whenever the corrected test would log in, the test `connect_aprs_is`
      has as written logs in too. */
  lemma CorrectedConnectsAsWritten(s: Session, network: seq<Attempt>, line: string)
    ensures AfterConnect(s, Corrected, network, line).ok ==> AfterConnect(s, AsWritten, network, line).ok
  {
    if AfterConnect(s, Corrected, network, line).ok {
      var j :| 0 <= j < |network| && Accepted(Corrected, network[j]);
      CorrectedAcceptsLess(network[j]);
    }
  }

  /** One server, answering `unverified`: the code as written logs in to it
      and keeps the socket, the corrected test drops it and fails. */
  lemma UnverifiedConnect(s: Session, line: string)
    ensures AfterConnect(s, AsWritten, [Responds([UnverifiedReply], TimedOut)], line)
      == Step(Session(Some(0), s.wire + [Write(0, line)]), true)
    ensures AfterConnect(s, Corrected, [Responds([UnverifiedReply], TimedOut)], line)
      == Step(Session(None, s.wire + [Write(0, line)]), false)
  {
    var network := [Responds([UnverifiedReply], TimedOut)];
    UnverifiedServer();
    TryingStep(s, network, line, 0);
    ConnectSettles(s, AsWritten, network, line, 0);
    ConnectRefused(s, Corrected, network, line);
  }

  /** A beacon loop's packet: a position report for the main station, an
      object report for an entry of `beacons`.  It comes from the beacon
      callsign, and its data type identifier says which kind it is. */
  function PacketFor(target: Target, callsign: string): (p: string)
    ensures |p| > |callsign| + |Header| && p[..|callsign|] == callsign
    ensures '>' !in callsign ==> FirstIndex(p, '>') == Some(|callsign|)
    ensures p[|callsign| + |Header|] == if target.kind.MainStation? then '=' else ';'
  {
    match target.kind
    case MainStation => PositionPacket(callsign, target.lat, target.lon, target.table, target.symbol, target.comment)
    case Object(name) => ObjectPacket(callsign, name, target.lat, target.lon, target.table, target.symbol, target.comment)
  }

  /** What a receiver reads back from a beacon loop's packet. */
  function ReportFor(target: Target, callsign: string): Report
    requires |target.table| == 1 && |target.symbol| == 1
  {
    var f := Fields(target.lat, target.table[0], target.lon, target.symbol[0], target.comment);
    match target.kind
    case MainStation => PositionReport(callsign, f)
    case Object(name) => ObjectReport(callsign, ObjectName(name), f)
  }

  /** Every packet a beacon loop sends reads back as its target. */
  lemma PacketForDecodes(target: Target, callsign: string)
    requires '>' !in callsign
    requires Decodable(target.lat, target.lon, target.table, target.symbol)
    ensures Decode(PacketFor(target, callsign)) == Some(ReportFor(target, callsign))
  {
    match target.kind
    case MainStation =>
      PositionRoundTrip(callsign, target.lat, target.lon, target.table, target.symbol, target.comment);
    case Object(name) =>
      ObjectRoundTrip(callsign, name, target.lat, target.lon, target.table, target.symbol, target.comment);
  }

  /** What happens around one pass of a beacon loop: the servers a
      reconnect would meet, whether the packet write succeeds, and whether
      `stop` is called while the loop sleeps afterwards. */
  datatype Round = Round(network: seq<Attempt>, writeOk: bool, stop: bool)

  /** How many packets a running loop sends: one per round up to and
      including the round after which `stop` is called. */
  function RoundsRun(rounds: seq<Round>): (n: nat)
    ensures n <= |rounds|
    ensures forall j :: 0 <= j && j + 1 < n ==> !rounds[j].stop
    ensures n < |rounds| ==> 0 < n && rounds[n - 1].stop
    ensures n == 0 <==> rounds == []
  {
    if rounds == [] then 0
    else if rounds[0].stop then 1
    else 1 + RoundsRun(rounds[1..])
  }


  /** One round of a running loop: the pass sends the packet, and a `stop`
      during the sleep after it drops the socket. */
  function AfterRound(s: Session, test: AcceptTest, dryRun: bool, line: string, packet: string, r: Round): (t: Session)
    ensures OnlyBeaconTraffic(s.wire, t.wire, line, packet)
    ensures dryRun ==> t.wire == s.wire
    ensures r.stop ==> t.socket.None?
  {
    var sent := AfterSend(s, test, dryRun, line, packet, r.network, r.writeOk).session;
    SendTraffic(s, test, dryRun, line, packet, r.network, r.writeOk);
    if r.stop then Session(None, sent.wire) else sent
  }

  /** A running loop over its rounds: one round after another, up to and
      including the first that calls `stop`. */
  function AfterRounds(s: Session, test: AcceptTest, dryRun: bool, line: string, packet: string,
                       rounds: seq<Round>): (t: Session)
    ensures OnlyBeaconTraffic(s.wire, t.wire, line, packet)
    ensures dryRun ==> t.wire == s.wire
    ensures (exists j :: 0 <= j < |rounds| && rounds[j].stop) ==> t.socket.None?
    decreases |rounds|
  {
    if rounds == [] then s
    else
      var u := AfterRound(s, test, dryRun, line, packet, rounds[0]);
      if rounds[0].stop then u
      else
        var t := AfterRounds(u, test, dryRun, line, packet, rounds[1..]);
        OnlyBeaconTrafficChain(s.wire, u.wire, t.wire, line, packet);
        assert forall j :: 1 <= j < |rounds| ==> rounds[j] == rounds[1..][j - 1];
        t
  }

  /** A `stop` during the first sleep leaves exactly one send: the loop's
      session is the first send's with the socket dropped, and if that send
      succeeded, its packet line is the last line written, once, after only
      login lines. */
  lemma StopAfterFirstPass(s: Session, test: AcceptTest, dryRun: bool, line: string, packet: string,
                           rounds: seq<Round>)
    requires rounds != [] && rounds[0].stop
    ensures RoundsRun(rounds) == 1
    ensures var sent := AfterSend(s, test, dryRun, line, packet, rounds[0].network, rounds[0].writeOk);
      && AfterRounds(s, test, dryRun, line, packet, rounds) == Session(None, sent.session.wire)
      && (sent.ok && !dryRun ==>
            && |s.wire| < |sent.session.wire|
            && sent.session.wire[|sent.session.wire| - 1].data == PacketLine(packet)
            && forall j :: |s.wire| <= j < |sent.session.wire| - 1 ==> sent.session.wire[j].data == line)
  {
    var sent := AfterSend(s, test, dryRun, line, packet, rounds[0].network, rounds[0].writeOk);
    if sent.ok && !dryRun {
      SendSuccess(s, test, line, packet, rounds[0].network, rounds[0].writeOk);
    }
  }

  class AprsBeacon {
    const settings: Settings
    /** The accept test `connect_aprs_is` applies; `AsWritten` is the code
        as it stands. */
    const test: AcceptTest
    var running: bool
    /** The server, by position in `settings.servers`, the socket is
        logged in to; `None` for no socket. */
    var socket: Option<nat>
    /** Every line a socket accepted, oldest first. */
    var wire: seq<Write>

    /** The socket and every line written are on configured servers. */
    ghost predicate Valid()
      reads this
    {
      && (socket.Some? ==> socket.value < |settings.servers|)
      && forall j :: 0 <= j < |wire| ==> wire[j].server < |settings.servers|
    }

    /** A beacon that has loaded `settings` and not yet started. */
    constructor (settings: Settings, test: AcceptTest)
      ensures this.settings == settings && this.test == test
      ensures !running && socket == None && wire == []
      ensures Valid()
    {
      this.settings := settings;
      this.test := test;
      running := false;
      socket := None;
      wire := [];
    }

    function LoginText(): string {
      LoginLine(settings.loginCallsign, settings.passcode)
    }

    /** One pass of the server loop of `connect_aprs_is`, at position `i`:
        the socket is taken as the beacon's socket before the TCP connect;
        a server that takes the login line gets it, and the socket is kept
        only if the reply passes the accept test. */
    method TryServer(a: Attempt, i: nat, line: string) returns (accepted: bool)
      requires Valid() && i < |settings.servers|
      modifies this
      ensures accepted == Accepted(test, a)
      ensures socket == (if accepted then Some(i) else None)
      ensures wire == old(wire) + (if a.Responds? then [Write(i, line)] else [])
      ensures running == old(running)
      ensures Valid()
    {
      socket := Some(i);
      match a {
        case Unreachable =>
          socket := None;
          accepted := false;
        case LoginWriteFails =>
          socket := None;
          accepted := false;
        case Responds(chunks, end) =>
          wire := wire + [Write(i, line)];
          var result := ReceiveLogin(chunks, end);
          accepted := result.Answer? && Passes(test, result.response);
          if !accepted {
            socket := None;
          }
      }
    }

    /** `connect_aprs_is`. */
    method Connect(network: seq<Attempt>) returns (ok: bool)
      requires Valid() && |network| == |settings.servers|
      modifies this
      ensures Step(Session(socket, wire), ok) == AfterConnect(Session(old(socket), old(wire)), test, network, LoginText())
      ensures running == old(running)
      ensures Valid()
    {
      var line := LoginText();
      ghost var s := Session(socket, wire);
      var i := 0;
      while i < |network|
        invariant 0 <= i <= |network|
        invariant forall j :: 0 <= j < i ==> !Accepted(test, network[j])
        invariant Session(socket, wire) == Trying(s, network, line, i)
        invariant running == old(running)
        invariant Valid()
      {
        var accepted := TryServer(network[i], i, line);
        if accepted {
          ConnectSettles(s, test, network, line, i);
          return true;
        }
        TryingStep(s, network, line, i);
        i := i + 1;
      }
      ConnectRefused(s, test, network, line);
      return false;
    }

    /** `disconnect_aprs_is`: close whatever socket there is, ignoring
        errors; with no socket nothing happens. */
    method Disconnect()
      modifies this
      ensures socket == None
      ensures wire == old(wire) && running == old(running)
    {
      socket := None;
    }

    /** `send_packet`. */
    method SendPacket(packet: string, network: seq<Attempt>, writeOk: bool) returns (ok: bool)
      requires Valid() && |network| == |settings.servers|
      modifies this
      ensures Step(Session(socket, wire), ok)
        == AfterSend(Session(old(socket), old(wire)), test, settings.dryRun, LoginText(), packet, network, writeOk)
      ensures running == old(running)
      ensures Valid()
    {
      if settings.dryRun {
        return true;
      }
      if socket.None? {
        var connected := Connect(network);
        if !connected {
          return false;
        }
      }
      if writeOk {
        wire := wire + [Write(socket.value, PacketLine(packet))];
        ok := true;
      } else {
        Disconnect();
        ok := false;
      }
    }

    /** `start`, without the threads: log in, then mark the beacon running.
        It connects in a dry run too. */
    method Start(network: seq<Attempt>) returns (ok: bool)
      requires Valid() && |network| == |settings.servers|
      modifies this
      ensures Step(Session(socket, wire), ok) == AfterConnect(Session(old(socket), old(wire)), test, network, LoginText())
      ensures running == (old(running) || ok)
      ensures Valid()
    {
      ok := Connect(network);
      if !ok {
        return false;
      }
      running := true;
    }

    /** `stop`, without joining the threads. */
    method Stop()
      modifies this
      ensures !running && socket == None
      ensures wire == old(wire)
    {
      running := false;
      Disconnect();
    }

    /** One pass of `beacon_main_station` or `beacon_object`: build the
        target's packet with the beacon callsign and send it. */
    method BeaconOnce(target: Target, network: seq<Attempt>, writeOk: bool) returns (ok: bool)
      requires Valid() && |network| == |settings.servers|
      modifies this
      ensures Step(Session(socket, wire), ok)
        == AfterSend(Session(old(socket), old(wire)), test, settings.dryRun, LoginText(),
                     PacketFor(target, settings.beaconCallsign), network, writeOk)
      ensures running == old(running)
      ensures Valid()
    {
      var packet := PacketFor(target, settings.beaconCallsign);
      ok := SendPacket(packet, network, writeOk);
    }

    /** One round of a loop: the pass, sending `packet`, then the sleep,
        during which `stop` may be called. */
    method PlayRound(packet: string, r: Round)
      requires Valid() && |r.network| == |settings.servers|
      modifies this
      ensures Session(socket, wire)
        == AfterRound(Session(old(socket), old(wire)), test, settings.dryRun, LoginText(), packet, r)
      ensures running == (old(running) && !r.stop)
      ensures Valid()
    {
      var _ := SendPacket(packet, r.network, r.writeOk);
      if r.stop {
        Stop();
      }
    }

    /** `while self.running`, sending the same packet every round. */
    method SendLoop(packet: string, rounds: seq<Round>) returns (sent: nat)
      requires Valid()
      requires forall j :: 0 <= j < |rounds| ==> |rounds[j].network| == |settings.servers|
      modifies this
      ensures sent == (if old(running) then RoundsRun(rounds) else 0)
      ensures running <==> old(running) && forall j :: 0 <= j < |rounds| ==> !rounds[j].stop
      ensures Session(socket, wire)
        == if old(running) then AfterRounds(Session(old(socket), old(wire)), test, settings.dryRun, LoginText(), packet, rounds)
           else Session(old(socket), old(wire))
      ensures Valid()
    {
      if !running {
        return 0;
      }
      ghost var s := Session(socket, wire);
      var i := 0;
      while i < |rounds| && running
        invariant 0 <= i <= |rounds|
        invariant Valid()
        invariant RoundsRun(rounds) == i + (if running then RoundsRun(rounds[i..]) else 0)
        invariant running <==> forall j :: 0 <= j < i ==> !rounds[j].stop
        invariant AfterRounds(s, test, settings.dryRun, LoginText(), packet, rounds)
          == if running then AfterRounds(Session(socket, wire), test, settings.dryRun, LoginText(), packet, rounds[i..])
             else Session(socket, wire)
        decreases |rounds| - i
      {
        PlayRound(packet, rounds[i]);
        assert rounds[i..][1..] == rounds[i + 1..];
        i := i + 1;
      }
      if i < |rounds| {
        assert !running;
      }
      sent := i;
    }

    /** A beacon loop, `beacon_main_station` or `beacon_object`, over the
        given rounds.  The configuration does not change while it runs, so
        every pass builds the same packet, and it is built once. */
    method RunBeacon(target: Target, rounds: seq<Round>) returns (sent: nat)
      requires Valid()
      requires forall j :: 0 <= j < |rounds| ==> |rounds[j].network| == |settings.servers|
      modifies this
      ensures sent == (if old(running) then RoundsRun(rounds) else 0)
      ensures running <==> old(running) && forall j :: 0 <= j < |rounds| ==> !rounds[j].stop
      ensures Session(socket, wire)
        == if old(running)
           then AfterRounds(Session(old(socket), old(wire)), test, settings.dryRun, LoginText(),
                            PacketFor(target, settings.beaconCallsign), rounds)
           else Session(old(socket), old(wire))
      // the loop only ever writes login lines and its own packet
      ensures OnlyBeaconTraffic(old(wire), wire, LoginText(), PacketFor(target, settings.beaconCallsign))
      ensures Valid()
    {
      sent := SendLoop(PacketFor(target, settings.beaconCallsign), rounds);
    }
  }
}

# APRS-IS beacon, transmit side

A Dafny model of the transmit side of the `APRSBeacon` class of the
9M2PJU Easy APRS Beacon (`9m2pju-aprs-beacon.py`). The beacon logs in to
an APRS-IS server and keeps sending APRS position reports for the main
station and object reports for extra targets. The model covers:

- the coordinate formatter and the two packet builders, as pure
  functions (`Coordinates`, `Packets`);
- the settings the beacon reads from its configuration: the login and
  beacon callsigns, the server list with its defaults, the passcode, the
  dry-run flag and each target's defaults (`Config`);
- the login handshake of `connect_aprs_is`: the login line, the loop
  that reads the server's reply, the accept test, and failing over
  through the servers (`Login`). The accept test is a parameter:
  `AsWritten` is line 92 as the code has it, `Corrected` the test it
  evidently intends (see Findings). A beacon built with `AsWritten` models
  the program as it stands;
- the session as a class, `BeaconService.AprsBeacon`, whose methods
  change the `running` flag, the socket and the record of written lines
  as the source's methods do (`BeaconService`).

Coordinates are fixed point: a signed count of hundredths of an
arc-minute, 6000 per degree. The hemisphere letter comes from the sign.

The network is given to each call as data. For each configured server
there is one `Attempt`:
- it is refused before the login line is out;
- the login write fails;
- or it answers with a sequence of received chunks, followed by a read
  timeout or a broken read.

A packet write comes with a flag that says whether it succeeds. The
socket is held as the position, in the server list, of the server it is
logged in to. `wire` records every line a socket accepted, with that
position, so "nothing else is written" can be stated.

Each operation has a partner:
- the packet builders have a decoder and round-trip lemmas;
- the read loop and the connect loop are methods proved equal to
  recursive specification functions, whose properties are lemmas;
- the session methods are proved equal to the functions `AfterConnect`,
  `AfterSend`, `AfterRound` and `AfterRounds` on a `Session` value, and
  the connect, send and round lemmas state what those do.

## Model

| member | source | states |
|---|---|---|
| Coordinates.MinuteHundredths | 9m2pju-aprs-beacon.py:116-117 | the minutes left after the whole degrees are always below 60.00 |
| Coordinates.MinutesText | 9m2pju-aprs-beacon.py:120-123 | `{minutes:05.2f}` is five characters: two digits, a point, two digits |
| Coordinates.FormatCoordinate | 9m2pju-aprs-beacon.py:115-123 | length is 6 plus the zero-padded degree width, so at least 8; the last letter is N, S, E or W exactly for latitude/longitude with sign >= 0 / < 0; the point is fourth from the end |
| Coordinates.FormatShape | 9m2pju-aprs-beacon.py:116-123 | when the degrees fit, a latitude is 8 and a longitude 9 characters: digits everywhere but the point and the hemisphere letter |
| Coordinates.CoordinateRoundTrip | 9m2pju-aprs-beacon.py:115-123 | formatting loses nothing: parsing the field gives back the coordinate whenever its degrees fit |
| Coordinates.FixtureLatitude | 9m2pju-aprs-beacon.py:115-123 | 3.1390 N (18834 units) formats as `0308.34N` |
| Coordinates.FixtureLongitude | 9m2pju-aprs-beacon.py:115-123 | 101.6869 E (610121 units) formats as `10141.21E` |
| Packets.ObjectName | 9m2pju-aprs-beacon.py:133 | the name field is exactly 9 characters: character i is the name's i-th, or a space after its end |
| Packets.ObjectNameIdempotent | 9m2pju-aprs-beacon.py:133 | padding and cutting an already 9-character name changes nothing |
| Packets.PositionPacket | 9m2pju-aprs-beacon.py:125-128 | a position report is addressed from the callsign, which ends at the report's first `>` when the callsign has none, followed by `>APRS,TCPIP*:` and the data type identifier `=` |
| Packets.ObjectPacket | 9m2pju-aprs-beacon.py:130-134 | an object report is addressed the same way, with identifier `;`, then the 9-character name field and `*111111z` |
| Packets.PositionRoundTrip | 9m2pju-aprs-beacon.py:125-128 | for a callsign without `>`, a one-character table and symbol and degrees that fit their fields, a position report decodes back to its callsign, coordinates, table, symbol and comment |
| Packets.ObjectRoundTrip | 9m2pju-aprs-beacon.py:130-134 | under the same conditions (callsign without `>`, one-character table and symbol, degrees that fit), an object report decodes back to its callsign, padded name and fields |
| Packets.FixturePosition | 9m2pju-aprs-beacon.py:125-128 | station 9M2PJU at 3.1390 N 101.6869 E, `/r`, comment `test` gives `9M2PJU>APRS,TCPIP*:=0308.34N/10141.21Ertest` |
| Packets.FixtureObject | 9m2pju-aprs-beacon.py:130-134 | the same place as object `KL` gives `...:;KL       *111111z0308.34N/10141.21Ertest` |
| Config.LoadConfig | 9m2pju-aprs-beacon.py:31-46 | loading fails exactly when the callsign, or the beacon callsign after its default, is not a string (`.strip()` raises) |
| Config.LoadConfigSettings | 9m2pju-aprs-beacon.py:36-41 | both callsigns are stripped and upper-cased; an absent beacon callsign is the login callsign; an absent server list is the two default servers on port 14580; passcode is `str()` of the value; dry run is its truth value |
| Config.CleanIdempotent | 9m2pju-aprs-beacon.py:36-37 | stripping and upper-casing twice is the same as once |
| Config.Resolve | 9m2pju-aprs-beacon.py:155-160 | every field is its key's value when the key is present, and otherwise position 0/0, table `/`, symbol `r`, empty comment, 10 minutes; the interval in seconds is 60 times the minutes |
| Config.MainStationTarget | 9m2pju-aprs-beacon.py:155-160 | the main station's target is a position-report target whose fields are the top-level keys or their defaults, as for `Resolve` |
| Config.ObjectTarget | 9m2pju-aprs-beacon.py:168-174 | an entry of `beacons` is an object target named by its `name`, empty if absent, whose fields are its keys or their defaults |
| Login.ReceiveLogin | 9m2pju-aprs-beacon.py:77-88 | the read loop returns what the recursive `Receive` gives from an empty reply |
| Login.Receive | 9m2pju-aprs-beacon.py:80-88 | a reply always begins with what was already received |
| Login.ReceiveFailsIff | 9m2pju-aprs-beacon.py:79-88 | the read fails exactly when the socket breaks before any empty chunk and before `logresp` has arrived |
| Login.ReceiveIsPrefix | 9m2pju-aprs-beacon.py:80-88 | a reply is the first k chunks, where k is where the loop stops: none of them empty, no `logresp` before the k-th, and then the timeout after the last chunk, an empty chunk, or `logresp` |
| Login.StopsAtUnique | 9m2pju-aprs-beacon.py:80-88 | the loop stops in one place only, so that condition fixes which chunks make up the reply |
| Login.UnverifiedLoginAccepted | 9m2pju-aprs-beacon.py:92 | line 92 accepts the reply `# logresp N0CALL unverified, server T2TEST`; the corrected test rejects it |
| Login.VerifiedLoginAccepted | 9m2pju-aprs-beacon.py:92 | the corrected test accepts `# logresp N0CALL verified, server T2TEST` |
| Login.LoginLine | 9m2pju-aprs-beacon.py:71 | the login line is `user `, the callsign, ` pass `, the passcode and ` vers ManualLogin 1.0` with CR LF, each at its place, 34 characters plus the callsign and passcode |
| Login.Accepted | 9m2pju-aprs-beacon.py:79-92 | a server accepts only after it took the login line and answered with a reply, read as far as the loop reads it, that mentions `logresp` |
| Login.CorrectedAcceptsLess | 9m2pju-aprs-beacon.py:92 | line 92 as written accepts every server the corrected test accepts; where they differ, the reply says `unverified` |
| Login.UnverifiedServer | 9m2pju-aprs-beacon.py:80-92 | a server answering `# logresp N0CALL unverified, server T2TEST` is accepted by line 92 as written, and rejected by the corrected test |
| Login.VerifiedServer | 9m2pju-aprs-beacon.py:80-92 | a server answering `# logresp N0CALL verified, server T2TEST` is accepted by either test |
| Login.FirstAccepted | 9m2pju-aprs-beacon.py:61-98 | under either accept test, the server logged in to is the first in list order that accepts; none exactly when no server accepts |
| Login.Tried | 9m2pju-aprs-beacon.py:61-104 | every server tried before the last one refuses; a connect stops before the end of the list only on a server that accepts, and if any server accepts, the last tried does |
| Login.LoginTraffic | 9m2pju-aprs-beacon.py:61-74 | every login line written is the login line, to servers in strictly increasing list order, at most one per server |
| Login.LoginTrafficServers | 9m2pju-aprs-beacon.py:64-74 | a login line goes to a server exactly when the server took the connection and the login write |
| BeaconService.AfterConnect | 9m2pju-aprs-beacon.py:57-104 | under either accept test, a connect succeeds exactly when some server accepts and then holds the first such; with servers and no success the socket is gone; an empty list changes nothing; only lines are appended |
| BeaconService.TryingStep | 9m2pju-aprs-beacon.py:95-101 | a server that does not accept leaves no socket, and adds its login line when it took one |
| BeaconService.ConnectSettles | 9m2pju-aprs-beacon.py:92-94 | a connect that settles on server i has written the login lines of the servers before it, then to i |
| BeaconService.ConnectRefused | 9m2pju-aprs-beacon.py:95-104 | a connect nobody accepts has written a login line to every server that took one, and returns false |
| BeaconService.ConnectStopsAtFirstAccepted | 9m2pju-aprs-beacon.py:61-94 | no login line goes to a server after the one the connect settles on |
| BeaconService.CorrectedConnectsAsWritten | 9m2pju-aprs-beacon.py:61-94 | whenever the corrected test would log in, the code as written logs in too |
| BeaconService.UnverifiedConnect | 9m2pju-aprs-beacon.py:61-104 | with one server answering `unverified`, the code as written keeps the socket on it and returns true; the corrected test drops the socket and returns false |
| BeaconService.AfterSend | 9m2pju-aprs-beacon.py:136-152 | a send succeeds exactly in a dry run, or when the write succeeds on an open socket or after a connect some server accepts; a failure leaves no socket; lines are only appended, and a real successful send writes its packet line last |
| BeaconService.DryRunSendsNothing | 9m2pju-aprs-beacon.py:137-139 | in a dry run a send succeeds, connects to nothing and writes nothing |
| BeaconService.SendSuccess | 9m2pju-aprs-beacon.py:141-148 | outside a dry run, a successful send holds a socket and writes the packet line once, last, after nothing but login lines |
| BeaconService.SendFailure | 9m2pju-aprs-beacon.py:141-152 | a failed send leaves no socket and writes no packet line |
| BeaconService.SendOnOpenSocket | 9m2pju-aprs-beacon.py:142-152 | outside a dry run and with a socket open, a send does not log in again; it succeeds exactly when the write does, and a failed write drops the socket |
| BeaconService.SendReconnects | 9m2pju-aprs-beacon.py:142-148 | outside a dry run and without a socket, a send succeeds exactly when some server accepts and the write succeeds, on the first server that accepts |
| BeaconService.SendTraffic | 9m2pju-aprs-beacon.py:136-152 | whatever the outcome, a send appends only login lines and its packet line |
| BeaconService.PacketFor | 9m2pju-aprs-beacon.py:163-177 | a loop's packet is addressed from the beacon callsign, and its identifier is `=` for the main station and `;` for an object |
| BeaconService.PacketForDecodes | 9m2pju-aprs-beacon.py:163-177 | when the beacon callsign has no `>`, the target's table and symbol are one character and its degrees fit, the packet a beacon loop builds decodes back to its target and the beacon callsign |
| BeaconService.RoundsRun | 9m2pju-aprs-beacon.py:162-165 | a running loop makes one pass per round up to and including the round in which `stop` is called |
| BeaconService.AfterRound | 9m2pju-aprs-beacon.py:162-165 | one round writes only login lines and its packet line, nothing in a dry run, and a stop during the sleep leaves no socket |
| BeaconService.AfterRounds | 9m2pju-aprs-beacon.py:162-179 | a run of rounds writes only login lines and its packet, nothing in a dry run, and leaves no socket once some round calls stop |
| BeaconService.StopAfterFirstPass | 9m2pju-aprs-beacon.py:162-165 | a stop during the first sleep leaves exactly one pass: one send's session, with the socket dropped, and its packet line written once and last if the send succeeded |
| BeaconService.AprsBeacon.constructor | 9m2pju-aprs-beacon.py:17-27 | a new beacon has the given settings and accept test, is not running, has no socket and has written nothing |
| BeaconService.AprsBeacon.TryServer | 9m2pju-aprs-beacon.py:64-101 | one server: the socket is taken, the login line is written if the server takes it, and the socket is kept exactly when the server accepts under the beacon's test |
| BeaconService.AprsBeacon.Connect | 9m2pju-aprs-beacon.py:57-104 | the loop over the servers leaves the socket, the written lines and the result that `AfterConnect` gives for the beacon's accept test; the socket and every line written stay on configured servers (`Valid`) |
| BeaconService.AprsBeacon.Disconnect | 9m2pju-aprs-beacon.py:106-113 | the socket is gone afterwards, and nothing is written |
| BeaconService.AprsBeacon.SendPacket | 9m2pju-aprs-beacon.py:136-152 | the socket, written lines and result are those `AfterSend` gives |
| BeaconService.AprsBeacon.Start | 9m2pju-aprs-beacon.py:181-185 | start connects as `AfterConnect` says, dry run or not; running is set when it connects and is otherwise left as it was |
| BeaconService.AprsBeacon.Stop | 9m2pju-aprs-beacon.py:198-200 | stop clears `running`, drops the socket and writes nothing |
| BeaconService.AprsBeacon.BeaconOnce | 9m2pju-aprs-beacon.py:163-164 | one pass of a loop sends the target's packet with the beacon callsign, as `AfterSend` says |
| BeaconService.AprsBeacon.PlayRound | 9m2pju-aprs-beacon.py:162-165 | one pass and the sleep after it leave the session `AfterRound` gives: the send `AfterSend` gives, then the socket dropped if stop was called; running ends exactly on a stop |
| BeaconService.AprsBeacon.SendLoop | 9m2pju-aprs-beacon.py:162-165 | `while self.running` makes exactly `RoundsRun` passes, leaves the session `AfterRounds` gives, stops running exactly when some round calls stop, and does nothing when not running |
| BeaconService.AprsBeacon.RunBeacon | 9m2pju-aprs-beacon.py:154-179 | a beacon loop leaves the session `AfterRounds` gives for its target's packet, writing only login lines and that packet; a loop that is not running does nothing |

## Left out

- Threads: the beacon loops run one at a time, so two loops sharing the socket at once is not modelled. Joining threads, daemon threads and the thread list are left out.
- Signal handlers, `sys.exit`, `run()` and its polling loop, `time.sleep` (the interval is only computed), and `log()` with its clock.
- Real sockets, the 30-second and 5-second timeouts, `recv(1024)` and UTF-8 encoding and decoding. Chunks arrive already decoded. A decode error counts as a broken read. A partial `sendall` counts as a failed write with nothing recorded.
- Floating point: coordinates are fixed point in hundredths of a minute. So the float rounding of `{minutes:05.2f}` is not modelled, including the case where it prints `60.00`.
- Reading the YAML file. The configuration arrives parsed. The four scalar keys that `load_config`, `connect_aprs_is` and `send_packet` read (`callsign`, `beacon_callsign`, `passcode`, `dry_run`) are an enumeration whose values are string, integer, bool, null or other. `aprs_servers` is an optional list of servers, the main station's keys (lines 155-160) and each entry of `beacons` (line 190) are records of optional, typed fields, and the `beacons` list itself is not read: each loop is given its target. An empty document, for which `.get` raises, is not modelled.
- Config.Resolve: target keys are typed, so a key present with null or with a value of another type is not modelled. The code then writes `None` into the packet for a `comment:` left empty (line 128), and raises outside any `try` for `latitude: null` (`abs`, line 116) or `name: null` (line 133), which ends that loop's thread. The model gives the present value or the default instead.
- A server entry without `host` or `port` raises `KeyError` outside the `try` of lines 62-63. Servers are records with both, so that case does not arise. An `aprs_servers` value that is not a list is not modelled either.
- A socket that is replaced while open is not modelled as leaked: the model has no open-socket resource.
- A target `interval` that is not a number is not modelled: minutes are integers.
- Whitespace and case are ASCII only: `str.strip` and `str.upper`/`lower` on non-ASCII characters are not modelled.
- `passcode` and `dry_run` are read at each connect and send in the code. The configuration never changes, so the model reads them once, into the settings.
- BeaconService.AprsBeacon.RunBeacon: the model builds the packet once, not on each pass as the code does. The inputs do not change, so every pass builds the same packet.
- BeaconService.AfterConnect: the model follows the code, not a claim that a failed connect always leaves no socket: with an empty server list the loop never runs, so the socket is left as it was.
- The comment follows the symbol with nothing between, so the 9M2PJU packet ends in `...10141.21Ertest`. `start` connects even in a dry run.
- `gui.py` is not part of this model.

## Findings

| source | as written | input that shows it | evidently intended | confidence | as-written member | corrected member |
|---|---|---|---|---|---|---|
| 9m2pju-aprs-beacon.py:92 | accepts a login when the lower-cased reply contains `logresp` and `verified` | `# logresp N0CALL unverified, server T2TEST`, the reply to a wrong passcode: it contains `verified` | accept only a verified login, rejecting a reply that says `unverified` | not executed | Login.LoginAcceptedAsWritten, Login.UnverifiedLoginAccepted, BeaconService.UnverifiedConnect | Login.LoginVerified, Login.VerifiedLoginAccepted, Login.VerifiedServer |

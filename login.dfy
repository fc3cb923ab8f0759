/** The APRS-IS login handshake of `APRSBeacon.connect_aprs_is`: the login
    line, the loop that reads the server's reply, and the test that decides
    whether the server accepted the login.

    The server side is given as data.  One connection attempt either fails
    before the login line is out (`Unreachable`, `LoginWriteFails`) or is
    answered by a sequence of received chunks, already decoded to text,
    followed by what the socket does once those chunks are used up. */
module Login {
  import opened Text

  /** What the socket does after the listed chunks: the 5-second read
      timeout fires (the partial reply is kept), or `recv` raises some other
      error (a reset connection, bytes that are not UTF-8), which abandons
      the attempt. */
  datatype ReadEnd = TimedOut | Broken

  datatype ReadResult = Answer(response: string) | ReadFailed

  /** One connection attempt as the server plays it.  An empty chunk is
      the end of the stream (`recv` returning no bytes). */
  datatype Attempt =
    | Unreachable
    | LoginWriteFails
    | Responds(chunks: seq<string>, end: ReadEnd)

  /** `"logresp" in response.lower()`. */
  predicate HasLogresp(s: string) {
    Contains(Lower(s), "logresp")
  }

  function Concat(chunks: seq<string>): string {
    if chunks == [] then "" else chunks[0] + Concat(chunks[1..])
  }

  /** What the read loop returns, having already received `acc`: it stops
      at an empty chunk, as soon as the text so far contains `logresp`, or
      when the chunks run out. */
  function Receive(chunks: seq<string>, end: ReadEnd, acc: string): (r: ReadResult)
    ensures r.Answer? ==> |acc| <= |r.response| && r.response[..|acc|] == acc
    decreases |chunks|
  {
    if chunks == [] then (if end == TimedOut then Answer(acc) else ReadFailed)
    else if chunks[0] == "" then Answer(acc)
    else
      var response := acc + chunks[0];
      if HasLogresp(response) then Answer(response) else Receive(chunks[1..], end, response)
  }

  /** The inner `while True` loop of `connect_aprs_is`. */
  method ReceiveLogin(chunks: seq<string>, end: ReadEnd) returns (result: ReadResult)
    ensures result == Receive(chunks, end, "")
  {
    var response := "";
    var i := 0;
    while i < |chunks|
      invariant 0 <= i <= |chunks|
      invariant Receive(chunks, end, "") == Receive(chunks[i..], end, response)
    {
      var chunk := chunks[i];
      if chunk == "" {
        return Answer(response);
      }
      response := response + chunk;
      if HasLogresp(response) {
        return Answer(response);
      }
      i := i + 1;
    }
    if end == TimedOut {
      result := Answer(response);
    } else {
      result := ReadFailed;
    }
  }

  lemma HasLogrespExtend(s: string, t: string)
    requires HasLogresp(s)
    ensures HasLogresp(s + t)
  {
    LowerAppend(s, t);
    ContainsExtend(Lower(s), "logresp", Lower(t));
  }

  /** The read fails exactly when the socket breaks before an empty chunk
      and before `logresp` has arrived. */
  lemma {:induction false} ReceiveFailsIff(chunks: seq<string>, end: ReadEnd, acc: string)
    requires !HasLogresp(acc)
    ensures Receive(chunks, end, acc) == ReadFailed
        <==> end == Broken && (forall i :: 0 <= i < |chunks| ==> chunks[i] != "")
             && !HasLogresp(acc + Concat(chunks))
    decreases |chunks|
  {
    if chunks == [] {
      assert acc + Concat(chunks) == acc;
    } else if chunks[0] == "" {
    } else {
      var response := acc + chunks[0];
      assert acc + Concat(chunks) == response + Concat(chunks[1..]);
      if HasLogresp(response) {
        HasLogrespExtend(response, Concat(chunks[1..]));
      } else {
        ReceiveFailsIff(chunks[1..], end, response);
        assert forall i :: 1 <= i < |chunks| ==> chunks[i] == chunks[1..][i - 1];
      }
    }
  }

  /** The first `j + 1` chunks are the first and then the `j` after it. */
  lemma ConcatFront(chunks: seq<string>, j: nat)
    requires j < |chunks|
    ensures Concat(chunks[..j + 1]) == chunks[0] + Concat(chunks[1..][..j])
  {
    assert chunks[..j + 1][1..] == chunks[1..][..j];
  }

  /** The read loop, having received `acc`, reads exactly the first `k`
      chunks: none of them is empty, none before the last brings `logresp`,
      and it stops after them for one of its three reasons: the timeout once
      the chunks are used up, an empty chunk, or `logresp` in the text so far. */
  predicate StopsAt(chunks: seq<string>, end: ReadEnd, acc: string, k: nat)
    requires k <= |chunks|
  {
    && (forall j :: 0 <= j < k ==> chunks[j] != "")
    && (forall j :: 0 < j < k ==> !HasLogresp(acc + Concat(chunks[..j])))
    && (|| (k == |chunks| && end == TimedOut)
        || (k < |chunks| && chunks[k] == "")
        || (0 < k && HasLogresp(acc + Concat(chunks[..k]))))
  }

  /** Stopping after `k` chunks of the rest is stopping after `k + 1` once
      the first chunk, which brings no `logresp`, is received. */
  lemma StopsAtFront(chunks: seq<string>, end: ReadEnd, acc: string, k: nat)
    requires 0 < |chunks| && chunks[0] != "" && !HasLogresp(acc + chunks[0])
    requires k <= |chunks| - 1 && StopsAt(chunks[1..], end, acc + chunks[0], k)
    ensures StopsAt(chunks, end, acc, k + 1)
    ensures acc + Concat(chunks[..k + 1]) == acc + chunks[0] + Concat(chunks[1..][..k])
  {
    var response := acc + chunks[0];
    forall j | 0 < j < k + 1 ensures !HasLogresp(acc + Concat(chunks[..j])) {
      ConcatFront(chunks, j - 1);
      assert acc + Concat(chunks[..j]) == response + Concat(chunks[1..][..j - 1]);
      if j == 1 {
        assert response + Concat(chunks[1..][..0]) == response;
      }
    }
    ConcatFront(chunks, k);
    assert acc + Concat(chunks[..k + 1]) == response + Concat(chunks[1..][..k]);
    assert forall j :: 1 <= j < k + 1 ==> chunks[j] == chunks[1..][j - 1];
  }

  /** The loop stops at one place only, so `StopsAt` fixes the reply. */
  lemma StopsAtUnique(chunks: seq<string>, end: ReadEnd, acc: string, k1: nat, k2: nat)
    requires k1 <= |chunks| && k2 <= |chunks|
    requires StopsAt(chunks, end, acc, k1) && StopsAt(chunks, end, acc, k2)
    ensures k1 == k2
  {
  }

  /** A reply is what was already received followed by the chunks the read
      loop reads before it stops. */
  lemma {:induction false} ReceiveIsPrefix(chunks: seq<string>, end: ReadEnd, acc: string)
    requires Receive(chunks, end, acc).Answer?
    ensures exists k :: (0 <= k <= |chunks| && StopsAt(chunks, end, acc, k)
                         && Receive(chunks, end, acc).response == acc + Concat(chunks[..k]))
    decreases |chunks|
  {
    var r := Receive(chunks, end, acc).response;
    if chunks == [] || chunks[0] == "" {
      assert r == acc + Concat(chunks[..0]);
      assert StopsAt(chunks, end, acc, 0);
    } else {
      var response := acc + chunks[0];
      ConcatFront(chunks, 0);
      if HasLogresp(response) {
        assert r == acc + Concat(chunks[..1]);
        assert StopsAt(chunks, end, acc, 1);
      } else {
        ReceiveIsPrefix(chunks[1..], end, response);
        var k :| 0 <= k <= |chunks[1..]| && StopsAt(chunks[1..], end, response, k)
          && r == response + Concat(chunks[1..][..k]);
        StopsAtFront(chunks, end, acc, k);
      }
    }
  }

  // ---------------------------------------------------------------------
  // The acceptance test

  /** The accept test of `connect_aprs_is` in `9m2pju-aprs-beacon.py`, as
      written (`"logresp" in response.lower() and "verified" in
      response.lower()`): the reply mentions `logresp` and `verified`,
      in any case.  `verified` is also a substring of `unverified`, which
      is what APRS-IS servers answer to a wrong or missing passcode. */
  predicate LoginAcceptedAsWritten(response: string) {
    HasLogresp(response) && Contains(Lower(response), "verified")
  }

  /** The intended test: the server verified the login, and did not answer
      `unverified`. */
  predicate LoginVerified(response: string) {
    LoginAcceptedAsWritten(response) && !Contains(Lower(response), "unverified")
  }

  /** The reply an APRS-IS server sends to a login with a wrong passcode,
      `# logresp N0CALL unverified, server T2TEST`, in pieces. */
  const UnverifiedReply: string := "# " + "logresp" + " N0CALL " + "un" + "verified" + ", server T2TEST"

  /** Lower-casing keeps an occurrence of a text with no capital letter. */
  lemma LowerKeepsOccurrence(s: string, t: string, i: nat)
    requires OccursAt(s, t, i)
    requires NoCapitals(t)
    ensures OccursAt(Lower(s), t, i)
  {
    assert Lower(s)[i..i + |t|] == t by {
      forall j | 0 <= j < |t| ensures Lower(s)[i..i + |t|][j] == t[j] {
        assert s[i + j] == t[j];
      }
    }
  }

  lemma OccursBetween(a: string, t: string, b: string)
    ensures OccursAt(a + t + b, t, |a|)
  {
    assert (a + t + b)[|a|..|a| + |t|] == t;
  }

  /** A text with no capital letter is found in the lower-cased text
      around it. */
  lemma ContainsInLower(a: string, t: string, b: string)
    requires NoCapitals(t)
    ensures Contains(Lower(a + t + b), t)
  {
    OccursBetween(a, t, b);
    LowerKeepsOccurrence(a + t + b, t, |a|);
  }

  /** No capital ASCII letter in `t`. */
  predicate NoCapitals(t: string) {
    forall j :: 0 <= j < |t| ==> !('A' <= t[j] <= 'Z')
  }

  /** The three texts of a reply `head k mid u v tail` that lower-casing
      keeps. */
  lemma ReplyOccurrences(head: string, k: string, mid: string, u: string, v: string, tail: string)
    requires NoCapitals(k) && NoCapitals(u + v) && NoCapitals(v)
    ensures var s := head + k + mid + u + v + tail;
      Contains(Lower(s), k) && Contains(Lower(s), v) && Contains(Lower(s), u + v)
  {
    var s := head + k + mid + u + v + tail;
    assert s == head + k + (mid + u + v + tail);
    ContainsInLower(head, k, mid + u + v + tail);
    assert s == (head + k + mid + u) + v + tail;
    ContainsInLower(head + k + mid + u, v, tail);
    assert s == (head + k + mid) + (u + v) + tail;
    ContainsInLower(head + k + mid, u + v, tail);
  }

  /** Any reply shaped `... logresp ... unverified ...` passes the test of
      `connect_aprs_is` as written and fails the corrected test. */
  lemma UnverifiedShape(head: string, mid: string, tail: string)
    ensures var s := head + "logresp" + mid + "un" + "verified" + tail;
      LoginAcceptedAsWritten(s) && !LoginVerified(s)
  {
    assert "un" + "verified" == "unverified";
    ReplyOccurrences(head, "logresp", mid, "un", "verified", tail);
  }

  /** The code as written logs in on an unverified reply, which the
      corrected test rejects. */
  lemma UnverifiedLoginAccepted()
    ensures LoginAcceptedAsWritten(UnverifiedReply)
    ensures !LoginVerified(UnverifiedReply)
  {
    UnverifiedShape("# ", " N0CALL ", ", server T2TEST");
  }

  /** No letter `u` in either case. */
  predicate NoLetterU(s: string) {
    forall i :: 0 <= i < |s| ==> s[i] != 'u' && s[i] != 'U'
  }

  lemma NoLetterUConcat(a: string, b: string)
    requires NoLetterU(a) && NoLetterU(b)
    ensures NoLetterU(a + b)
  {
    forall i | 0 <= i < |a + b| ensures (a + b)[i] != 'u' && (a + b)[i] != 'U' {
      if i < |a| { assert (a + b)[i] == a[i]; } else { assert (a + b)[i] == b[i - |a|]; }
    }
  }

  /** A reply without the letter `u` cannot say `unverified`. */
  lemma NoUnverified(s: string)
    requires NoLetterU(s)
    ensures !Contains(Lower(s), "unverified")
  {
    forall i: nat | i <= |Lower(s)| ensures !OccursAt(Lower(s), "unverified", i) {
      if i + 10 <= |s| {
        assert Lower(s)[i..i + 10][0] == LowerChar(s[i]) != 'u';
      }
    }
  }

  /** The two texts of a reply `head k mid v tail` that lower-casing keeps. */
  lemma TwoOccurrences(head: string, k: string, mid: string, v: string, tail: string)
    requires NoCapitals(k) && NoCapitals(v)
    ensures var s := head + k + mid + v + tail;
      Contains(Lower(s), k) && Contains(Lower(s), v)
  {
    var s := head + k + mid + v + tail;
    assert s == head + k + (mid + v + tail);
    ContainsInLower(head, k, mid + v + tail);
    assert s == (head + k + mid) + v + tail;
    ContainsInLower(head + k + mid, v, tail);
  }

  lemma NoLetterUConcat5(a: string, b: string, c: string, d: string, e: string)
    requires NoLetterU(a) && NoLetterU(b) && NoLetterU(c) && NoLetterU(d) && NoLetterU(e)
    ensures NoLetterU(a + b + c + d + e)
  {
    NoLetterUConcat(a, b);
    NoLetterUConcat(a + b, c);
    NoLetterUConcat(a + b + c, d);
    NoLetterUConcat(a + b + c + d, e);
  }

  lemma KeywordsLackU()
    ensures NoLetterU("logresp") && NoLetterU("verified")
  {
  }

  /** Any reply shaped `... logresp ... verified ...` without the letter
      `u` around passes the corrected test. */
  lemma VerifiedShape(head: string, mid: string, tail: string)
    requires NoLetterU(head) && NoLetterU(mid) && NoLetterU(tail)
    ensures LoginVerified(head + "logresp" + mid + "verified" + tail)
  {
    KeywordsLackU();
    TwoOccurrences(head, "logresp", mid, "verified", tail);
    NoLetterUConcat5(head, "logresp", mid, "verified", tail);
    NoUnverified(head + "logresp" + mid + "verified" + tail);
  }

  /** The reply an APRS-IS server sends to a login with the right passcode,
      `# logresp N0CALL verified, server T2TEST`, in pieces. */
  const VerifiedReply: string := "# " + "logresp" + " N0CALL " + "verified" + ", server T2TEST"

  /** The corrected test still logs in on a verified reply. */
  lemma VerifiedLoginAccepted()
    ensures LoginVerified(VerifiedReply)
  {
    VerifiedShape("# ", " N0CALL ", ", server T2TEST");
  }

  /** The login line: `user CALL pass CODE vers ManualLogin 1.0` and CR LF. */
  function LoginLine(callsign: string, passcode: string): (line: string)
    ensures |line| == 34 + |callsign| + |passcode|
    ensures line[..5] == "user "
    ensures line[5..5 + |callsign|] == callsign
    ensures line[5 + |callsign|..11 + |callsign|] == " pass "
    ensures line[11 + |callsign|..11 + |callsign| + |passcode|] == passcode
    ensures line[11 + |callsign| + |passcode|..] == " vers ManualLogin 1.0\r\n"
    ensures line[|line| - 2..] == "\r\n"
  {
    "user " + callsign + " pass " + passcode + " vers ManualLogin 1.0\r\n"
  }

  /** Which test a connect applies to a reply: the one `connect_aprs_is`
      has as written, or the corrected test. */
  datatype AcceptTest = AsWritten | Corrected

  predicate Passes(test: AcceptTest, response: string) {
    match test
    case AsWritten => LoginAcceptedAsWritten(response)
    case Corrected => LoginVerified(response)
  }

  /** The server of this attempt accepts the login: it took the login line
      and the reply, as far as the read loop reads it, passes `test`. */
  function Accepted(test: AcceptTest, a: Attempt): (b: bool)
    ensures b ==> a.Responds? && Receive(a.chunks, a.end, "").Answer?
    ensures b ==> HasLogresp(Receive(a.chunks, a.end, "").response)
  {
    a.Responds? && var result := Receive(a.chunks, a.end, "");
    result.Answer? && Passes(test, result.response)
  }

  /** The test `connect_aprs_is` has as written accepts every server the
      corrected test accepts; where they part, the reply says `unverified`. */
  lemma CorrectedAcceptsLess(a: Attempt)
    ensures Accepted(Corrected, a) ==> Accepted(AsWritten, a)
    ensures Accepted(AsWritten, a) && !Accepted(Corrected, a)
      ==> Contains(Lower(Receive(a.chunks, a.end, "").response), "unverified")
  {
  }

  /** A server whose one chunk is a whole reply answers with that reply. */
  lemma OneChunkReply(reply: string)
    requires HasLogresp(reply)
    ensures Receive([reply], TimedOut, "") == Answer(reply)
  {
    assert "" + reply == reply;
  }

  /** A server answering `unverified` is accepted by the test
      `connect_aprs_is` has as written, and rejected by the corrected test. */
  lemma UnverifiedServer()
    ensures Accepted(AsWritten, Responds([UnverifiedReply], TimedOut))
    ensures !Accepted(Corrected, Responds([UnverifiedReply], TimedOut))
  {
    UnverifiedLoginAccepted();
    OneChunkReply(UnverifiedReply);
  }

  /** A server answering `verified` is accepted by both tests. */
  lemma VerifiedServer(test: AcceptTest)
    ensures Accepted(test, Responds([VerifiedReply], TimedOut))
  {
    VerifiedLoginAccepted();
    OneChunkReply(VerifiedReply);
  }

  /** The first server of the list that accepts the login. */
  function FirstAccepted(test: AcceptTest, network: seq<Attempt>): (r: Option<nat>)
    ensures r.Some? ==> r.value < |network| && Accepted(test, network[r.value])
    ensures r.Some? ==> forall j :: 0 <= j < r.value ==> !Accepted(test, network[j])
    ensures r.None? <==> forall j :: 0 <= j < |network| ==> !Accepted(test, network[j])
  {
    if network == [] then None
    else if Accepted(test, network[0]) then Some(0)
    else match FirstAccepted(test, network[1..])
      case None => None
      case Some(k) => Some(k + 1)
  }

  /** How many servers one connect call tries: every one before the last
      tried refuses, and the connect stops early only on a server that
      accepts. */
  function Tried(test: AcceptTest, network: seq<Attempt>): (n: nat)
    ensures n <= |network|
    ensures forall j :: 0 <= j && j + 1 < n ==> !Accepted(test, network[j])
    ensures n < |network| ==> 0 < n && Accepted(test, network[n - 1])
    ensures (exists j :: 0 <= j < |network| && Accepted(test, network[j])) ==> 0 < n && Accepted(test, network[n - 1])
  {
    match FirstAccepted(test, network)
    case Some(k) => k + 1
    case None => |network|
  }

  /** One line written to a server's socket: the position of the server in
      the list, and the text. */
  datatype Write = Write(server: nat, data: string)

  /** The login lines written while trying the given servers in order: one
      for every server that took the connection and the login line. */
  function LoginTraffic(network: seq<Attempt>, line: string): (w: seq<Write>)
    ensures |w| <= |network|
    ensures forall i :: 0 <= i < |w| ==> w[i].data == line && w[i].server < |network|
    ensures forall i, j :: 0 <= i < j < |w| ==> w[i].server < w[j].server
  {
    if network == [] then []
    else
      var last := |network| - 1;
      var before := LoginTraffic(network[..last], line);
      if network[last].Responds? then before + [Write(last, line)] else before
  }

  /** Trying one more server adds its login line when it took one. */
  lemma LoginTrafficStep(network: seq<Attempt>, i: nat, line: string)
    requires i < |network|
    ensures LoginTraffic(network[..i + 1], line)
      == LoginTraffic(network[..i], line) + (if network[i].Responds? then [Write(i, line)] else [])
  {
    assert network[..i + 1][..i] == network[..i];
  }

  /** The first server that accepts, found by trying them in order. */
  lemma FirstAcceptedAt(test: AcceptTest, network: seq<Attempt>, i: nat)
    requires i < |network| && Accepted(test, network[i])
    requires forall j :: 0 <= j < i ==> !Accepted(test, network[j])
    ensures FirstAccepted(test, network) == Some(i) && Tried(test, network) == i + 1
  {
  }

  /** Some line of `w` went to server `k`. */
  predicate WritesTo(w: seq<Write>, k: nat) {
    exists i :: 0 <= i < |w| && w[i].server == k
  }

  /** A login line goes to exactly the servers that took the connection
      and the login line. */
  lemma {:induction false} LoginTrafficServers(network: seq<Attempt>, line: string, k: nat)
    ensures WritesTo(LoginTraffic(network, line), k) <==> k < |network| && network[k].Responds?
    decreases |network|
  {
    var w := LoginTraffic(network, line);
    if network != [] {
      var last := |network| - 1;
      var before := LoginTraffic(network[..last], line);
      LoginTrafficServers(network[..last], line, k);
      assert k < last ==> network[..last][k] == network[k];
      if k >= last {
        assert !WritesTo(before, k);
      }
      if network[last].Responds? {
        assert w == before + [Write(last, line)];
        assert forall i :: 0 <= i < |before| ==> w[i] == before[i];
        if k == last {
          assert w[|w| - 1].server == k;
        } else if WritesTo(w, k) {
          var i :| 0 <= i < |w| && w[i].server == k;
          assert i < |before| && before[i].server == k;
        }
      } else {
        assert w == before;
      }
    }
  }
}

/** The outbound side of the mail server (sendmail_thread and bounce in
    src/sbbs3/mailsrvr.c): which queued messages a pass picks up, where each
    is sent, the primary-then-secondary mail exchanger with the pass's list of
    failed servers, and what a failed or completed attempt does to the
    message's header. DNS look-ups, socket calls and the replies of the remote
    server are inputs. */
module Delivery {
  import opened Text
  import opened MsgAttr
  import opened Smtp

  const AGENT_PERSON: nat := 0
  const AGENT_SMTPSYSMSG: nat := 2

  /** The fields of a queued message that delivery reads and never changes. */
  datatype Origin = Origin(
    agent: nat, fromUser: nat, fromNet: NetType, from: string, fromExt: Option<string>,
    reversePath: Option<string>, subject: string, toNet: NetType, toAddr: Option<string>)

  /** The fields of the header that delivery changes. */
  datatype Hdr = Hdr(attr: Attr, netattr: NetAttr, attempts: nat)

  // ---------------------------------------------------------------- in transit

  /** A pass sends a message that is not deleted, goes to the Internet, has
      an address, and is not claimed by another sender unless the server is
      configured to send such messages anyway (lines 4385-4400). */
  predicate Eligible(o: Origin, h: Hdr, sendInTransit: bool) {
    !Has(h.attr, MSG_DELETE) && o.toNet == NetInternet && o.toAddr.Some?
    && (sendInTransit || !HasNet(h.netattr, MSG_INTRANSIT))
  }

  function Claimed(h: Hdr): (r: Hdr)
    ensures HasNet(r.netattr, MSG_INTRANSIT) && (r.netattr ^ h.netattr) & !MSG_INTRANSIT == 0
    ensures r.attr == h.attr && r.attempts == h.attempts
  {
    h.(netattr := SetNet(h.netattr, MSG_INTRANSIT))
  }

  /** remove_msg_intransit (lines 4205-4223). */
  function Released(h: Hdr): (r: Hdr)
    ensures !HasNet(r.netattr, MSG_INTRANSIT) && (r.netattr ^ h.netattr) & !MSG_INTRANSIT == 0
    ensures r.attr == h.attr && r.attempts == h.attempts
  {
    h.(netattr := ClearNet(h.netattr, MSG_INTRANSIT))
  }

  /** A completed transfer deletes the message and releases it (lines
      4769-4775). */
  function Sent(h: Hdr): (r: Hdr)
    ensures Has(r.attr, MSG_DELETE) && (r.attr ^ h.attr) & !MSG_DELETE == 0
    ensures !HasNet(r.netattr, MSG_INTRANSIT) && r.attempts == h.attempts
  {
    h.(attr := Set(h.attr, MSG_DELETE), netattr := ClearNet(h.netattr, MSG_INTRANSIT))
  }

  /** Once claimed, a message is skipped by every other sender that honours
      the flag; released without other change, it is eligible again. */
  lemma ClaimExcludes(o: Origin, h: Hdr)
    requires Eligible(o, h, false)
    ensures !Eligible(o, Claimed(h), false)
    ensures Released(Claimed(h)) == h && Eligible(o, Released(Claimed(h)), false)
  {
    SetThenClear(h.netattr, MSG_INTRANSIT);
  }

  /** A message that was sent is never picked up again. */
  lemma SentNotResent(o: Origin, h: Hdr, sendInTransit: bool)
    ensures !Eligible(o, Sent(h), sendInTransit)
  {
  }

  // ---------------------------------------------------------------- bounce

  /** delivery_attempts is an unsigned short. The message is given up when
      the failure is permanent or the attempts reach the maximum. */
  predicate GivesUp(attempts: nat, immediate: bool, maxAttempts: nat) {
    immediate || attempts >= maxAttempts
  }

  /** bounce: one more attempt is counted, and a message given up is
      deleted (lines 4101-4130). */
  function Bounced(h: Hdr, immediate: bool, maxAttempts: nat): (r: Hdr)
    requires h.attempts < USHRT_LIMIT
    ensures r.attempts == Inc16(h.attempts) && r.netattr == h.netattr
    ensures Has(r.attr, MSG_DELETE) <==> Has(h.attr, MSG_DELETE) || GivesUp(r.attempts, immediate, maxAttempts)
    ensures (r.attr ^ h.attr) & !MSG_DELETE == 0
  {
    var a := Inc16(h.attempts);
    if GivesUp(a, immediate, maxAttempts) then Hdr(Set(h.attr, MSG_DELETE), h.netattr, a)
    else h.(attempts := a)
  }

  /** No failure notice goes to the agent that writes them, to a sender who
      asked for none, to a local sender with no network address, or to an
      empty reverse path (lines 4132-4138). */
  predicate Unanswerable(o: Origin, attr: Attr) {
    o.agent == AGENT_SMTPSYSMSG || Has(attr, MSG_NOREPLY)
    || (o.fromUser == 0 && o.fromNet == NetNone) || o.reversePath == Some([])
  }

  /** The failure notice: a new message to the original sender. */
  datatype Notice = Notice(
    subject: string, recipient: string, recipientExt: Option<string>,
    recipientNet: Option<(NetType, string)>, recipientAgent: Option<nat>,
    attr: Attr, attempts: nat, sender: string, senderAgent: nat, comments: seq<string>)

  function AttemptsText(n: nat): string {
    if n > 1 then "after " + Dec(n) + " attempts" else ""
  }

  /** The notice's subject: the original one behind a fixed prefix, cut to
      the header field's size. */
  function NoticeSubject(subject: string): (r: string)
    ensures |r| <= 127 && |r| == if |subject| <= 109 then 18 + |subject| else 127
    ensures r[..18] == "Delivery failure: "
    ensures r[18..] == subject[..|r| - 18]
  {
    Take("Delivery failure: " + subject, 127)
  }

  /** The notice's text: who reports, the route that failed, the reason,
      and the lead-in to the original text. */
  function NoticeText(back: string, to: string, attempts: nat, err: string, hostName: string): (c: seq<string>)
    ensures |c| == 5 && c[2] == "Reason:" && c[3] == err
  {
    var reporting := hostName + " reporting delivery failure of message " + AttemptsText(attempts);
    var route := "from " + back + " to " + to + CRLF;
    [Take(reporting, 127), Take(route, 127), "Reason:", err, CRLF + "Original message text follows:" + CRLF]
  }

  /** The notice for a message with attributes `attr0` given up after
      `attempts` attempts (lines 4142-4189). */
  function NoticeFor(o: Origin, attr0: Attr, attempts: nat, err: string, hostName: string): (n: Notice)
    requires o.toAddr.Some?
    ensures n.attempts == 0 && n.recipient == o.from && n.senderAgent == AGENT_SMTPSYSMSG
    ensures n.attr == Set(attr0, MSG_NOREPLY)
    ensures |n.subject| <= 127 && |n.comments| == 5 && n.comments[3] == err
    ensures n.recipientAgent.Some? <==> o.agent != AGENT_PERSON
  {
    var person := o.agent == AGENT_PERSON;
    var back := if o.reversePath.None? then o.from else o.reversePath.value;
    var net := if person && (o.fromNet == NetQwk || o.fromNet == NetInternet) && o.reversePath.Some?
      then Some((o.fromNet, o.reversePath.value)) else None;
    Notice(
      NoticeSubject(o.subject), o.from, if person then o.fromExt else None, net,
      if person then None else Some(o.agent),
      Set(attr0, MSG_NOREPLY), 0, MailerName, AGENT_SMTPSYSMSG,
      NoticeText(back, o.toAddr.value, attempts, err, hostName))
  }

  const MailerName: string := "Mail Delivery Subsystem"

  /** The notice bounce writes, if any. */
  function BounceNotice(o: Origin, h: Hdr, immediate: bool, maxAttempts: nat, err: string, hostName: string): (r: Option<Notice>)
    requires h.attempts < USHRT_LIMIT && o.toAddr.Some?
    ensures r.Some? <==> GivesUp(Inc16(h.attempts), immediate, maxAttempts) && !Unanswerable(o, h.attr)
  {
    var a := Inc16(h.attempts);
    if GivesUp(a, immediate, maxAttempts) && !Unanswerable(o, Set(h.attr, MSG_DELETE)) then
      Some(NoticeFor(o, h.attr, a, err, hostName))
    else None
  }

  /** A failure notice that cannot be delivered in turn is never answered:
      its sender agent and its attributes both rule that out. */
  lemma NoticeNotAnswered(o: Origin, h: Hdr, immediate: bool, maxAttempts: nat, err: string, hostName: string, o2: Origin)
    requires h.attempts < USHRT_LIMIT && o.toAddr.Some?
    requires BounceNotice(o, h, immediate, maxAttempts, err, hostName).Some?
    requires o2.agent == BounceNotice(o, h, immediate, maxAttempts, err, hostName).value.senderAgent
    ensures Unanswerable(o2, BounceNotice(o, h, immediate, maxAttempts, err, hostName).value.attr)
  {
  }

  /** `k` temporary failures in a row. */
  function Failures(h: Hdr, k: nat, maxAttempts: nat): (r: Hdr)
    requires h.attempts + k < USHRT_LIMIT
    ensures r.attempts == h.attempts + k
    decreases k
  {
    if k == 0 then h else Bounced(Failures(h, k - 1, maxAttempts), false, maxAttempts)
  }

  /** A fresh message survives maxAttempts - 1 temporary failures and is
      deleted by the next one. */
  lemma {:induction false} RetriedUntilMax(h: Hdr, k: nat, maxAttempts: nat)
    requires h.attempts == 0 && !Has(h.attr, MSG_DELETE) && k < USHRT_LIMIT
    ensures Has(Failures(h, k, maxAttempts).attr, MSG_DELETE) <==> k >= maxAttempts && k > 0
    decreases k
  {
    if k > 0 {
      RetriedUntilMax(h, k - 1, maxAttempts);
      assert Inc16(k - 1) == k;
    }
  }

  // ---------------------------------------------------------------- one attempt

  /** Where an attempt stops with an unexpected reply, and the reply it
      expected there. */
  datatype Stage = Greeting | Hello | AuthStart | AuthPassword | AuthDone | MailFromStage | RcptToStage | DataStart | DataEnd

  predicate AuthStage(s: Stage) { s == AuthStart || s == AuthPassword || s == AuthDone }

  function Expected(s: Stage): (r: string)
    ensures |r| >= 3 && (r[0] == '2' || r[0] == '3')
    ensures r[0] == '3' <==> s == AuthStart || s == AuthPassword || s == DataStart
  {
    match s
    case Greeting => "220"
    case Hello => "250"
    case AuthStart => "334 Username/Challenge"
    case AuthPassword => "334 Password"
    case AuthDone => "235"
    case MailFromStage => "250"
    case RcptToStage => "25*"
    case DataStart => "354"
    case DataEnd => "250"
  }

  /** How an attempt ended: sent, stopped before connecting, or refused. */
  datatype Result =
    | Delivered
    | NoText
    | BadAddress(to: string)
    | NoDnsServer
    | MxFailed(code: int, domain: string)
    | NoSocket
    | Unreached(err: string)
    | Rejected(stage: Stage, server: string, reply: string)

  function BadReply(server: string, reply: string, expected: string): string {
    server + " replied with:" + CRLF + "\"" + reply + "\"" + CRLF + "instead of the expected reply:" + CRLF + "\"" + expected + " ...\""
  }

  /** A server that refuses a recipient is reported with the reply it sent
      and the expected reply "25* ...", permanently when it began with 5. */
  lemma RcptRefusalText(server: string, reply: string)
    ensures BounceOf(Rejected(RcptToStage, server, reply)) == Some((
      server + " replied with:" + "\r\n" + "\"" + reply + "\"" + "\r\n"
      + "instead of the expected reply:" + "\r\n" + "\"" + "25*" + " ...\"",
      reply != [] && reply[0] == '5'))
  {
  }

  /** A reply starting with '5' is a permanent failure. */
  predicate Permanent(reply: string) { reply != [] && reply[0] == '5' }

  /** The bounce an ended attempt asks for: its error text and whether it
      is permanent. */
  function BounceOf(r: Result): (b: Option<(string, bool)>)
    ensures b.None? <==> r.Delivered? || r.NoText? || r.NoDnsServer? || r.NoSocket?
    ensures b.Some? && b.value.1 <==> r.BadAddress? || (r.Rejected? && Permanent(r.reply))
  {
    match r
    case BadAddress(to) => Some(("Invalid destination address: " + to, true))
    case MxFailed(code, domain) => Some(("Error " + IntText(code) + " obtaining MX record for " + domain, false))
    case Unreached(err) => Some((err, false))
    case Rejected(stage, server, reply) => Some((BadReply(server, reply, Expected(stage)), Permanent(reply)))
    case _ => None
  }

  /** The header after an attempt on a claimed message: every ending
      releases the claim. */
  function AfterAttempt(h: Hdr, r: Result, maxAttempts: nat): (h': Hdr)
    requires h.attempts < USHRT_LIMIT
    ensures h'.attempts < USHRT_LIMIT
  {
    if r.Delivered? then Sent(h)
    else match BounceOf(r)
      case None => Released(h)
      case Some((_, immediate)) => Bounced(Released(h), immediate, maxAttempts)
  }

  /** The header after an attempt, as written: a refusal during relay
      authentication bounces without releasing the claim (lines 4651-4712). */
  function AfterAttemptAsWritten(h: Hdr, r: Result, maxAttempts: nat): (h': Hdr)
    requires h.attempts < USHRT_LIMIT
  {
    if r.Rejected? && AuthStage(r.stage) then Bounced(h, Permanent(r.reply), maxAttempts)
    else AfterAttempt(h, r, maxAttempts)
  }

  /** Every attempt leaves the message released, so a message not given up
      is sent again by a later pass. */
  lemma ReleasedAfterAttempt(o: Origin, h: Hdr, r: Result, maxAttempts: nat)
    requires h.attempts < USHRT_LIMIT
    ensures !HasNet(AfterAttempt(Claimed(h), r, maxAttempts).netattr, MSG_INTRANSIT)
    ensures Eligible(o, h, false) && !Has(AfterAttempt(Claimed(h), r, maxAttempts).attr, MSG_DELETE)
      ==> Eligible(o, AfterAttempt(Claimed(h), r, maxAttempts), false)
  {
  }

  /** As written, a relay that refuses AUTH with a temporary error leaves the
      message claimed: it is not deleted, yet no later pass sends it. */
  lemma AuthRefusalStaysClaimed(o: Origin, h: Hdr, server: string, maxAttempts: nat)
    requires Eligible(o, h, false) && h.attempts == 0 && maxAttempts > 1
    ensures var h' := AfterAttemptAsWritten(Claimed(h), Rejected(AuthStart, server, "454 try later"), maxAttempts);
      !Has(h'.attr, MSG_DELETE) && HasNet(h'.netattr, MSG_INTRANSIT) && !Eligible(o, h', false)
  {
    assert !Permanent("454 try later");
  }

  // ---------------------------------------------------------------- routing

  /** The settings routing reads. `inDomains` is membership of domains.cfg. */
  datatype SendConfig = SendConfig(
    sysInetAddr: string, hostName: string, inDomains: string -> bool,
    relayTx: bool, relayServer: string, relayPort: nat, smtpPort: nat, interfaceAddr: nat)

  /** Where a message goes. ViaMx names the domain whose mail exchangers
      are looked up. */
  datatype Route =
    | BadDestination(to: string)
    | Loopback(server: string, port: nat)
    | ViaRelay(server: string, port: nat)
    | Direct(server: string, port: nat)
    | ViaMx(domain: string)

  /** A port of 0 means the SMTP port. */
  function PortOr25(p: nat): (r: nat)
    ensures r != 0 && (p != 0 ==> r == p)
  {
    if p == 0 then 25 else p
  }

  /** An address in host byte order, written with its first octet in the
      most significant byte. */
  function Dotted(a: nat): string
    requires a < 0x1_0000_0000
  {
    Dec(a / 0x1000000 % 256) + "." + Dec(a / 0x10000 % 256) + "." + Dec(a / 0x100 % 256) + "." + Dec(a % 256)
  }

  /** The route of a message to `addr` (lines 4440-4505): the text before
      the first '>' or space, split at its last '@'. */
  function RouteOf(addr: string, cfg: SendConfig): (r: Route)
    requires cfg.interfaceAddr < 0x1_0000_0000
    ensures r.BadDestination? <==> '@' !in TruncAt(Take(addr, 127), {'>', ' '})
  {
    var to := TruncAt(Take(addr, 127), {'>', ' '});
    match LastIndexOf(to, '@')
    case None => BadDestination(to)
    case Some(i) =>
      var p := to[i + 1..];
      if IEq(p, cfg.sysInetAddr) || IEq(p, cfg.hostName) || cfg.inDomains(p) then
        Loopback(if cfg.interfaceAddr == 0 then "127.0.0.1" else Dotted(cfg.interfaceAddr), PortOr25(cfg.smtpPort))
      else if cfg.relayTx then ViaRelay(cfg.relayServer, PortOr25(cfg.relayPort))
      else match DestPort(p)
        case None => ViaMx(p)
        case Some(port) => if port == 0 then ViaMx(DestHost(p)) else Direct(DestHost(p), port)
  }

  /** user@host:port with a port other than 0 goes straight to host:port
      when the host is not this system and no relay is configured; without
      a port, the mail exchangers of host are looked up. */
  lemma RouteExplicitPort(user: string, host: string, n: nat, cfg: SendConfig)
    requires cfg.interfaceAddr < 0x1_0000_0000 && !cfg.relayTx
    requires '@' !in host && ':' !in host && '>' !in host && ' ' !in host && '>' !in user && ' ' !in user
    requires 0 < n < USHRT_LIMIT && |user| + |host| + |Dec(n)| + 2 <= 127
    requires var p := host + ":" + Dec(n); !IEq(p, cfg.sysInetAddr) && !IEq(p, cfg.hostName) && !cfg.inDomains(p)
    ensures RouteOf(user + "@" + host + ":" + Dec(n), cfg) == Direct(host, n)
  {
    var p := host + ":" + Dec(n);
    var addr := user + "@" + host + ":" + Dec(n);
    assert addr == user + "@" + p by {
      Assoc(user + "@" + host, ":", Dec(n));
      Assoc(user + "@", host, ":" + Dec(n));
      Assoc(user + "@", host + ":", Dec(n));
    }
    var d := Dec(n);
    forall k | 0 <= k < |p| ensures p[k] != '@' && p[k] != '>' && p[k] != ' ' {
      if k < |host| { assert p[k] == host[k]; }
      else if k > |host| { assert p[k] == d[k - |host| - 1] && IsDigit(d[k - |host| - 1]); }
    }
    RouteAt(user, p, cfg);
    DestOf(host, n);
  }

  /** The destination text after the last '@' of a short address without
      stops. */
  lemma RouteAt(user: string, p: string, cfg: SendConfig)
    requires '@' !in p && '>' !in p && ' ' !in p && '>' !in user && ' ' !in user && |user| + |p| + 1 <= 127
    ensures var to := TruncAt(Take(user + "@" + p, 127), {'>', ' '});
      LastIndexOf(to, '@') == Some(|user|) && to[|user| + 1..] == p
  {
    var a := user + "@" + p;
    TakeAll(a, 127);
    assert forall k :: 0 <= k < |a| ==> a[k] !in {'>', ' '} by {
      forall k | 0 <= k < |a| ensures a[k] !in {'>', ' '} {
        if k < |user| { assert a[k] == user[k]; }
        else if k > |user| { assert a[k] == p[k - |user| - 1]; }
      }
    }
    TruncAtNone(a, {'>', ' '});
    forall k | |user| < k < |a| ensures a[k] != '@' {
      assert a[k] == p[k - |user| - 1];
    }
    LastIndexOfAt(a, '@', |user|);
    assert a[|user| + 1..] == p;
  }

  // ---------------------------------------------------------------- connecting

  /** A server's address: an IPv4 address as the socket layer stores it (the
      first octet in the low byte) and a port. */
  datatype Server = Server(ip: nat, port: nat)

  /** inet_ntoa */
  function Ntoa(ip: nat): string {
    Dec(ip % 256) + "." + Dec(ip / 0x100 % 256) + "." + Dec(ip / 0x10000 % 256) + "." + Dec(ip / 0x1000000 % 256)
  }

  function IntText(i: int): string {
    if i < 0 then "-" + Dec(-i) else Dec(i)
  }

  /** The servers tried, in order: the primary, then the secondary mail
      exchanger when there is one and no relay is used. The flag says
      whether the name came from the MX look-up. */
  function Candidates(primary: string, primaryIsMx: bool, secondary: string, relayTx: bool): (r: seq<(string, bool)>)
    ensures 1 <= |r| <= 2 && r[0] == (primary, primaryIsMx)
    ensures |r| == 2 <==> !relayTx && secondary != []
  {
    [(primary, primaryIsMx)] + (if relayTx || secondary == [] then [] else [(secondary, true)])
  }

  /** What a try of one server gives: a connection, a skip with an error,
      or a failed connection recorded in the failed list. */
  datatype Try = Connected | Skipped(err: string) | NoConnect(err: string, addr: Server, code: int)

  /** A mail exchanger must not resolve to a loopback or null address. */
  predicate BadMxAddress(ip: nat) { ip % 256 == 127 || ip == 0 }

  function TryOne(c: (string, bool), failed: map<Server, int>, port: nat, resolve: string -> Option<nat>, connect: Server -> int): (t: Try)
    ensures t.NoConnect? ==> t.addr !in failed && t.code != 0 && t.code == connect(t.addr)
    ensures t.Connected? ==>
      resolve(c.0).Some? && Server(resolve(c.0).value, port) !in failed && connect(Server(resolve(c.0).value, port)) == 0
  {
    var (server, isMx) := c;
    match resolve(server)
    case None => Skipped("Failed to resolve SMTP hostname: " + server)
    case Some(ip) =>
      var addr := Server(ip, port);
      if addr in failed then Skipped("Error " + IntText(failed[addr]) + " connecting to SMTP server: " + server)
      else if isMx && BadMxAddress(ip) then Skipped("Bad IP address (" + Ntoa(ip) + ") for MX server: " + server)
      else if connect(addr) != 0 then NoConnect("Error " + IntText(connect(addr)) + " connecting to SMTP server: " + server, addr, connect(addr))
      else Connected
  }

  /** The outcome of trying the candidates from `i` on: the index of the
      server connected to, the last error, and the failed list. */
  datatype Pass = Pass(connected: Option<nat>, err: string, failed: map<Server, int>)

  function TryFrom(cands: seq<(string, bool)>, i: nat, failed: map<Server, int>, err: string, port: nat,
                   resolve: string -> Option<nat>, connect: Server -> int): (p: Pass)
    requires i <= |cands|
    ensures p.connected.Some? ==> i <= p.connected.value < |cands|
    ensures failed.Keys <= p.failed.Keys
    decreases |cands| - i
  {
    if i == |cands| then Pass(None, err, failed)
    else match TryOne(cands[i], failed, port, resolve, connect)
      case Connected => Pass(Some(i), err, failed)
      case Skipped(e) => TryFrom(cands, i + 1, failed, e, port, resolve, connect)
      case NoConnect(e, a, code) => TryFrom(cands, i + 1, failed[a := code], e, port, resolve, connect)
  }

  /** A server that failed earlier in the pass is never connected to again,
      and only servers that refused a connection join the list. */
  lemma {:induction false} FailedNotRetried(cands: seq<(string, bool)>, i: nat, failed: map<Server, int>, err: string,
                                            port: nat, resolve: string -> Option<nat>, connect: Server -> int)
    requires i <= |cands|
    ensures var p := TryFrom(cands, i, failed, err, port, resolve, connect);
      (p.connected.Some? ==>
         resolve(cands[p.connected.value].0).Some?
         && Server(resolve(cands[p.connected.value].0).value, port) !in failed)
      && (forall a :: a in p.failed && a !in failed ==> connect(a) != 0 && p.failed[a] == connect(a))
      && (forall a :: a in failed ==> p.failed[a] == failed[a])
    decreases |cands| - i
  {
    if i < |cands| {
      match TryOne(cands[i], failed, port, resolve, connect)
      case Connected =>
      case Skipped(e) => FailedNotRetried(cands, i + 1, failed, e, port, resolve, connect);
      case NoConnect(e, a, code) =>
        FailedNotRetried(cands, i + 1, failed[a := code], e, port, resolve, connect);
        var p := TryFrom(cands, i + 1, failed[a := code], e, port, resolve, connect);
        if p.connected.Some? {
          var j := p.connected.value;
          assert Server(resolve(cands[j].0).value, port) !in failed[a := code];
        }
    }
  }

  /** The secondary is tried only when the primary gave no connection. */
  lemma SecondaryAfterPrimary(cands: seq<(string, bool)>, failed: map<Server, int>, err: string,
                              port: nat, resolve: string -> Option<nat>, connect: Server -> int)
    requires |cands| == 2
    requires TryFrom(cands, 0, failed, err, port, resolve, connect).connected == Some(1)
    ensures !TryOne(cands[0], failed, port, resolve, connect).Connected?
  {
  }

  /** What a mail-exchanger look-up gives. */
  datatype Mx = MxError(code: int) | MxFound(mx: string, mx2: string)

  /** The outside world one attempt meets: whether the text could be read,
      whether a DNS server is configured, the look-ups, whether a socket
      could be set up, and for each server the first reply that was not the
      one expected (none when the transfer completes). `auth` says whether
      the AUTH exchange takes place. */
  datatype Network = Network(
    hasText: bool, dnsServer: bool, mxOf: string -> Mx, socketOk: bool,
    resolve: string -> Option<nat>, connect: Server -> int,
    refusal: (string, bool) -> Option<(Stage, string)>)

  /** The settings of the relay's AUTH exchange: it takes place when
      relaying with an authentication method, unless the message stays on
      this system (lines 4625-4626). */
  predicate UsesAuth(cfg: SendConfig, relayAuth: bool, r: Route) {
    cfg.relayTx && relayAuth && !r.Loopback?
  }

  /** The servers a route leads to and the port: None for a route that ends
      before connecting. */
  function Targets(r: Route, net: Network): (t: Option<(seq<(string, bool)>, nat)>)
    requires !r.BadDestination?
    ensures t.Some? ==> 1 <= |t.value.0| <= 2
  {
    match r
    case Loopback(server, port) => Some(([(server, false)], port))
    case ViaRelay(server, port) => Some(([(server, false)], port))
    case Direct(server, port) => Some(([(server, false)], port))
    case ViaMx(d) =>
      if !net.dnsServer then None
      else match net.mxOf(d)
        case MxError(_) => None
        case MxFound(mx, mx2) => Some((Candidates(mx, true, mx2, false), 25))
  }

  /** How an attempt to send a message to `addr` ends, and the failed list
      after it (lines 4424-4775). */
  function AttemptOf(addr: string, cfg: SendConfig, relayAuth: bool, net: Network, failed: map<Server, int>): (a: (Result, map<Server, int>))
    requires cfg.interfaceAddr < 0x1_0000_0000
    ensures failed.Keys <= a.1.Keys
    ensures a.0.Delivered? ==> net.hasText && !RouteOf(addr, cfg).BadDestination?
  {
    if !net.hasText then (NoText, failed)
    else
      var r := RouteOf(addr, cfg);
      if r.BadDestination? then (BadAddress(r.to), failed)
      else if r.ViaMx? && !net.dnsServer then (NoDnsServer, failed)
      else if r.ViaMx? && net.mxOf(r.domain).MxError? then (MxFailed(net.mxOf(r.domain).code, r.domain), failed)
      else if !net.socketOk then (NoSocket, failed)
      else
        var (cands, port) := Targets(r, net).value;
        var p := TryFrom(cands, 0, failed, "UNKNOWN ERROR", port, net.resolve, net.connect);
        if p.connected.None? then (Unreached(p.err), p.failed)
        else
          var server := cands[p.connected.value].0;
          match net.refusal(server, UsesAuth(cfg, relayAuth, r))
          case None => (Delivered, p.failed)
          case Some((stage, reply)) => (Rejected(stage, server, reply), p.failed)
  }

  /** The sending side's state across the messages of one pass. */
  class Sender {
    var failed: map<Server, int>

    constructor()
      ensures failed == map[]
    {
      failed := map[];
    }

    /** Each pass over the queue starts with an empty failed list (line
        4314). */
    method NewPass()
      modifies this`failed
      ensures failed == map[]
    {
      failed := map[];
    }

    /** The connection loop of one message (lines 4542-4597). */
    method Connect(cands: seq<(string, bool)>, port: nat, resolve: string -> Option<nat>, connect: Server -> int)
      returns (success: bool, server: string, err: string)
      requires |cands| > 0
      modifies this`failed
      ensures var p := TryFrom(cands, 0, old(failed), "UNKNOWN ERROR", port, resolve, connect);
        success == p.connected.Some? && failed == p.failed
        && (success ==> server == cands[p.connected.value].0)
        && (!success ==> err == p.err)
    {
      err := "UNKNOWN ERROR";
      success := false;
      server := cands[0].0;
      var j := 0;
      while j < |cands| && !success
        invariant j <= |cands|
        invariant success ==> (0 < j && server == cands[j - 1].0
          && TryFrom(cands, 0, old(failed), "UNKNOWN ERROR", port, resolve, connect) == Pass(Some(j - 1), err, failed))
        invariant !success ==> (TryFrom(cands, 0, old(failed), "UNKNOWN ERROR", port, resolve, connect)
          == TryFrom(cands, j, failed, err, port, resolve, connect))
        decreases |cands| - j
      {
        server := cands[j].0;
        var t := TryOne(cands[j], failed, port, resolve, connect);
        match t {
          case Connected => success := true;
          case Skipped(e) => err := e;
          case NoConnect(e, a, code) =>
            err := e;
            failed := failed[a := code];
        }
        j := j + 1;
      }
    }

    /** One message of a pass: picked up when eligible, claimed, sent, and
        left as the attempt's outcome says. */
    method Send(q: Queued, cfg: SendConfig, relayAuth: bool, net: Network, sendInTransit: bool,
                maxAttempts: nat, hostName: string) returns (notice: Option<Notice>)
      requires q.Valid() && cfg.interfaceAddr < 0x1_0000_0000
      modifies this`failed, q`attr, q`netattr, q`attempts
      ensures q.Valid()
      ensures !Eligible(q.origin, old(q.Now()), sendInTransit) ==> q.Now() == old(q.Now()) && failed == old(failed) && notice == None
      ensures Eligible(q.origin, old(q.Now()), sendInTransit) ==>
        var a := AttemptOf(q.origin.toAddr.value, cfg, relayAuth, net, old(failed));
        failed == a.1 && q.Now() == AfterAttempt(Claimed(old(q.Now())), a.0, maxAttempts)
        && notice == match BounceOf(a.0)
             case None => None
             case Some((err, immediate)) =>
               BounceNotice(q.origin, Released(Claimed(old(q.Now()))), immediate, maxAttempts, err, hostName)
    {
      if !Eligible(q.origin, q.Now(), sendInTransit) {
        return None;
      }
      q.Claim();
      var result: Result;
      var addr := q.origin.toAddr.value;
      var r := RouteOf(addr, cfg);
      if !net.hasText {
        result := NoText;
      } else if r.BadDestination? {
        result := BadAddress(r.to);
      } else if r.ViaMx? && !net.dnsServer {
        result := NoDnsServer;
      } else if r.ViaMx? && net.mxOf(r.domain).MxError? {
        result := MxFailed(net.mxOf(r.domain).code, r.domain);
      } else if !net.socketOk {
        result := NoSocket;
      } else {
        var (cands, port) := Targets(r, net).value;
        var success, server, err := Connect(cands, port, net.resolve, net.connect);
        if !success {
          result := Unreached(err);
        } else {
          match net.refusal(server, UsesAuth(cfg, relayAuth, r)) {
            case None => result := Delivered;
            case Some((stage, reply)) => result := Rejected(stage, server, reply);
          }
        }
      }
      notice := q.Finish(result, maxAttempts, hostName);
    }
  }

  /** A queued message and the header fields delivery changes. */
  class Queued {
    var attr: Attr
    var netattr: NetAttr
    var attempts: nat
    const origin: Origin

    function Now(): Hdr
      reads this`attr, this`netattr, this`attempts
    {
      Hdr(attr, netattr, attempts)
    }

    ghost predicate Valid()
      reads this`attempts
    {
      attempts < USHRT_LIMIT
    }

    constructor(origin: Origin, h: Hdr)
      requires h.attempts < USHRT_LIMIT
      ensures Valid() && Now() == h && this.origin == origin
    {
      attr := h.attr;
      netattr := h.netattr;
      attempts := h.attempts;
      this.origin := origin;
    }

    /** Claiming the message for this sender (lines 4399-4401). */
    method Claim()
      modifies this`netattr
      ensures Now() == Claimed(old(Now()))
    {
      netattr := SetNet(netattr, MSG_INTRANSIT);
    }

    method Release()
      modifies this`netattr
      ensures Now() == Released(old(Now()))
    {
      netattr := ClearNet(netattr, MSG_INTRANSIT);
    }

    /** bounce (lines 4093-4203): the notice, if any, is returned for the
        caller to store. */
    method Bounce(err: string, immediate: bool, maxAttempts: nat, hostName: string) returns (notice: Option<Notice>)
      requires Valid() && origin.toAddr.Some?
      modifies this`attempts, this`attr
      ensures Valid() && Now() == Bounced(old(Now()), immediate, maxAttempts)
      ensures notice == BounceNotice(origin, old(Now()), immediate, maxAttempts, err, hostName)
    {
      attempts := Inc16(attempts);
      if !immediate && attempts < maxAttempts {
        return None;
      }
      var attr0 := attr;
      attr := Set(attr, MSG_DELETE);
      if Unanswerable(origin, attr) {
        return None;
      }
      notice := Some(NoticeFor(origin, attr0, attempts, err, hostName));
    }

    /** The end of an attempt on a claimed message. */
    method Finish(r: Result, maxAttempts: nat, hostName: string) returns (notice: Option<Notice>)
      requires Valid() && origin.toAddr.Some?
      modifies this`attempts, this`attr, this`netattr
      ensures Valid() && Now() == AfterAttempt(old(Now()), r, maxAttempts)
      ensures notice == match BounceOf(r)
        case None => None
        case Some((err, immediate)) => BounceNotice(origin, Released(old(Now())), immediate, maxAttempts, err, hostName)
    {
      if r.Delivered? {
        attr := Set(attr, MSG_DELETE);
        netattr := ClearNet(netattr, MSG_INTRANSIT);
        return None;
      }
      Release();
      match BounceOf(r)
      case None => notice := None;
      case Some((err, immediate)) => notice := Bounce(err, immediate, maxAttempts, hostName);
    }
  }
}

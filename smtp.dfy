/** The SMTP side of the mail server (smtp_thread in src/sbbs3/mailsrvr.c):
    how a command line is classified, which commands the session state
    admits, what HELO, EHLO, RSET and MAIL FROM reset, the ordered checks a
    RCPT TO: passes before a recipient is recorded (with the relay decision),
    DATA and the capture of the message lines, and the closing of the session
    after too many unknown commands. Look-ups in files, the user base and DNS
    are given to the model as their results. */
module Smtp {
  import opened Text
  import opened Replies
  import Headers
  import Codec
  import Auth

  // ---------------------------------------------------------------- session values

  datatype State = Initial | HeloDone | MailFrom | RcptTo | DataHeader | DataBody

  /** The order of the states, as the C enumeration numbers them. */
  function Rank(s: State): nat {
    match s
    case Initial => 0
    case HeloDone => 1
    case MailFrom => 2
    case RcptTo => 3
    case DataHeader => 4
    case DataBody => 5
  }

  /** Which of MAIL, SEND, SOML and SAML opened the transaction. */
  datatype Cmd = NoCmd | Mail | Send | Soml | Saml

  /** The network type of an address; NetOther stands for the networks the
      mail server does not route (FidoNet and the like). */
  datatype NetType = NetNone | NetInternet | NetQwk | NetOther

  /** One section of the recipient list file: the RECIPIENT value, the user
      number (0 when the section has no RECIPIENTEXT key), and the network
      type and address (NetNone: no such keys). */
  datatype Rcpt = Rcpt(name: string, usernum: nat, netType: NetType, netAddr: string)

  /** rcpt_count is an unsigned short. */
  const USHRT_LIMIT: nat := 0x1_0000

  /** rcpt_count++ */
  function Inc16(n: nat): (r: nat)
    requires n < USHRT_LIMIT
    ensures r < USHRT_LIMIT
    ensures r == n + 1 || (n == USHRT_LIMIT - 1 && r == 0)
  {
    if n + 1 == USHRT_LIMIT then 0 else n + 1
  }

  // ---------------------------------------------------------------- commands

  datatype Verb =
    | HeloVerb | EhloVerb | AuthVerb(mech: Mech) | AuthUnknownVerb | QuitVerb | NoopVerb | TurnVerb
    | RsetVerb | FromVerb(cmd: Cmd) | RcptVerb | DataVerb | OtherVerb

  /** The command a line is, matched in the order the session matches it:
      HELO, EHLO, "AUTH" and "DATA" and the four "... FROM:" forms and
      "RCPT TO:" by case-insensitive prefix, the rest by case-insensitive
      equality. */
  function VerbOf(line: string): (v: Verb)
    ensures v.FromVerb? ==> v.cmd != NoCmd && |line| >= 10
    ensures v.HeloVerb? || v.EhloVerb? ==> |line| >= 4
    ensures v.RcptVerb? ==> |line| >= 8
    ensures v == AuthVerb(Plain) ==> |line| >= 10
  {
    if IPrefix("HELO", line) then HeloVerb
    else if IPrefix("EHLO", line) then EhloVerb
    else if IEq(line, "AUTH LOGIN") then AuthVerb(Login)
    else if IPrefix("AUTH PLAIN", line) then AuthVerb(Plain)
    else if IEq(line, "AUTH CRAM-MD5") then AuthVerb(CramMd5)
    else if IPrefix("AUTH", line) then AuthUnknownVerb
    else if IEq(line, "QUIT") then QuitVerb
    else if IEq(line, "NOOP") then NoopVerb
    else if IEq(line, "TURN") then TurnVerb
    else if IEq(line, "RSET") then RsetVerb
    else if IPrefix("MAIL FROM:", line) then FromVerb(Mail)
    else if IPrefix("SEND FROM:", line) then FromVerb(Send)
    else if IPrefix("SOML FROM:", line) then FromVerb(Soml)
    else if IPrefix("SAML FROM:", line) then FromVerb(Saml)
    else if IPrefix("RCPT TO:", line) then RcptVerb
    else if IPrefix("DATA", line) then DataVerb
    else OtherVerb
  }

  /** The commands the session answers in any state. */
  predicate Exempt(v: Verb) {
    v.HeloVerb? || v.EhloVerb? || v.AuthVerb? || v.AuthUnknownVerb? || v.QuitVerb? || v.NoopVerb?
  }

  /** Whether the state admits the command: before HELO or EHLO only the
      exempt commands, RCPT only after MAIL FROM, DATA only after a RCPT. */
  predicate Admitted(s: State, v: Verb) {
    Exempt(v) || (Rank(s) >= 1 && (v.RcptVerb? ==> Rank(s) >= 2) && (v.DataVerb? ==> Rank(s) >= 3))
  }

  /** Upper-casing a character twice is upper-casing it once. */
  lemma UpperTwice(c: char)
    ensures ToUpper(ToUpper(c)) == ToUpper(c)
  {
  }

  lemma IEqUpperLeft(a: string, b: string)
    ensures IEq(Upper(a), b) <==> IEq(a, b)
  {
    forall i | 0 <= i < |a| ensures ToUpper(Upper(a)[i]) == ToUpper(a[i]) {
      UpperTwice(a[i]);
    }
  }

  lemma IPrefixUpper(p: string, s: string)
    ensures IPrefix(p, Upper(s)) <==> IPrefix(p, s)
  {
    if |p| <= |s| {
      assert Upper(s)[..|p|] == Upper(s[..|p|]);
      IEqUpperLeft(s[..|p|], p);
    }
  }

  /** The command does not depend on the case of the line. */
  lemma {:induction false} VerbIgnoresCase(line: string)
    ensures VerbOf(Upper(line)) == VerbOf(line)
  {
    var u := Upper(line);
    IPrefixUpper("HELO", line);
    IPrefixUpper("EHLO", line);
    IPrefixUpper("AUTH PLAIN", line);
    IPrefixUpper("AUTH", line);
    IPrefixUpper("MAIL FROM:", line);
    IPrefixUpper("SEND FROM:", line);
    IPrefixUpper("SOML FROM:", line);
    IPrefixUpper("SAML FROM:", line);
    IPrefixUpper("RCPT TO:", line);
    IPrefixUpper("DATA", line);
    IEqUpperLeft(line, "AUTH LOGIN");
    IEqUpperLeft(line, "AUTH CRAM-MD5");
    IEqUpperLeft(line, "QUIT");
    IEqUpperLeft(line, "NOOP");
    IEqUpperLeft(line, "TURN");
    IEqUpperLeft(line, "RSET");
  }

  /** Whatever follows "MAIL FROM:" (the reverse path and any ESMTP
      parameters), the line is a MAIL command. */
  lemma MailFromLine(rest: string)
    ensures VerbOf("MAIL FROM:" + rest) == FromVerb(Mail)
  {
    var l := "MAIL FROM:" + rest;
    assert l[..10] == "MAIL FROM:";
    assert l[..4] == "MAIL" && l[..8] == "MAIL FRO";
    assert !IPrefix("HELO", l) && !IPrefix("EHLO", l) && !IPrefix("AUTH", l);
    assert !IPrefix("AUTH PLAIN", l) by { assert l[..10][..4] == l[..4]; }
    assert !IEq(l, "AUTH LOGIN") && !IEq(l, "AUTH CRAM-MD5") by {
      assert ToUpper(l[0]) != ToUpper('A');
    }
    assert !IEq(l, "QUIT") && !IEq(l, "NOOP") && !IEq(l, "TURN") && !IEq(l, "RSET") by {
      assert |l| >= 10;
    }
  }

  /** Whatever follows "RCPT TO:", the line is a RCPT command. */
  lemma RcptLine(rest: string)
    ensures VerbOf("RCPT TO:" + rest) == RcptVerb
  {
    var l := "RCPT TO:" + rest;
    assert l[..8] == "RCPT TO:";
    assert l[..4] == "RCPT";
    assert !IPrefix("HELO", l) && !IPrefix("EHLO", l) && !IPrefix("AUTH", l);
    assert !IPrefix("AUTH PLAIN", l) by { if |l| >= 10 { assert l[..10][..4] == l[..4]; } }
    assert !IEq(l, "AUTH LOGIN") && !IEq(l, "AUTH CRAM-MD5") by {
      assert ToUpper(l[0]) != ToUpper('A');
    }
    assert !IEq(l, "QUIT") && !IEq(l, "NOOP") && !IEq(l, "TURN") && !IEq(l, "RSET") by {
      assert |l| >= 8;
    }
    assert !IPrefix("MAIL FROM:", l) && !IPrefix("SEND FROM:", l) by {
      if |l| >= 10 { assert l[..10][0] == 'R'; }
    }
    assert !IPrefix("SOML FROM:", l) && !IPrefix("SAML FROM:", l) by {
      if |l| >= 10 { assert l[..10][0] == 'R'; }
    }
  }

  // ---------------------------------------------------------------- HELO and EHLO

  /** The reply to EHLO (lines 3279-3285): the host name, the extensions
      the server offers, and its message size limit. */
  function EhloReply(hostName: string, maxMsgSize: nat): (r: seq<string>)
    ensures |r| == 7 && r[0] == "250-" + hostName && r[6] == "250 SIZE " + Dec(maxMsgSize)
    ensures r[1] == "250-AUTH PLAIN LOGIN CRAM-MD5"
  {
    ["250-" + hostName, "250-AUTH PLAIN LOGIN CRAM-MD5", "250-SEND", "250-SOML",
     "250-SAML", "250-8BITMIME", "250 SIZE " + Dec(maxMsgSize)]
  }

  /** The EHLO reply is one multi-line reply (section 4.2.1 of RFC 5321):
      every line but the last starts "250-", the last starts "250 ". */
  lemma EhloMultiline(hostName: string, maxMsgSize: nat)
    ensures var r := EhloReply(hostName, maxMsgSize);
      forall k :: 0 <= k < |r| - 1 ==> |r[k]| >= 4 && r[k][..4] == "250-"
    ensures var r := EhloReply(hostName, maxMsgSize);
      |r[|r| - 1]| >= 4 && r[|r| - 1][..4] == "250 "
  {
    var r := EhloReply(hostName, maxMsgSize);
    SplitAt("250-", hostName);
    SplitAt("250 ", "SIZE " + Dec(maxMsgSize));
    Assoc("250 ", "SIZE ", Dec(maxMsgSize));
    assert "250-AUTH PLAIN LOGIN CRAM-MD5"[..4] == "250-";
    assert "250-8BITMIME"[..4] == "250-";
  }

  /** The reply to QUIT. */
  function QuitRsp(hostName: string): string {
    "221 " + hostName + " Service closing transmission channel"
  }

  // ---------------------------------------------------------------- configuration and look-ups

  /** The server's settings that the session consults. `resolvesHere` and
      `inDomains` stand for resolving a host to the server's own address and
      for the host being listed in domains.cfg; `b64` is the base64 decoder
      (None when it reports an error) and `b64enc` the encoder; `md5` and
      `hex` are MD5_calc and MD5_hex. */
  datatype Config = Config(
    hostName: string, sysInetAddr: string, serverPort: nat, maxMsgSize: nat,
    maxRecipients: nat, allowRelay: bool, authViaIp: bool, dnsblBadUser: bool,
    fwdToNet: bool, signedChar: bool,
    resolvesHere: string -> bool, inDomains: string -> bool,
    b64: string -> Option<string>, b64enc: string -> string,
    md5: seq<byte> -> Auth.Digest, hex: Auth.Digest -> string)

  /** The record of the relay user (relay_user; number 0 when nobody has
      authenticated): exempt from the M limits, G- or M-restricted, e-mails
      sent today, the daily limit of the user's level, and e-mails the user
      has pending. The session keeps the number; the rest is looked up. */
  datatype RelayUser = RelayUser(number: nat, exemptM: bool, restricted: bool,
                                 etoday: nat, perDay: nat, pendingSent: nat)

  /** The local user a recipient name resolved to (0: none, UINT_MAX: a
      blocked tag) and that user's record. */
  datatype UserFacts = UserFacts(
    number: nat, read: bool, gone: bool, mRestricted: bool, mailboxFull: bool, online: bool,
    netmail: string, netmailFlag: bool, netmailInternet: bool, alias: string)

  /** The results of the look-ups a command makes: the sender and recipient
      checks of chk_email_addr, the DNS blacklist result, the spam-bait and
      relay lists, the address and name aliases, the IP-based relay user, the
      first external processor that claims the recipient, the sub-board and
      QWKnet hub with the name, the user, at the end of DATA whether the
      sender is still connected and the entries of twitlist.cfg, and for
      AUTH the user base, the lines the client answers the server's 334
      prompts with, and the CRAM-MD5 challenge. */
  datatype Facts = Facts(
    relay: RelayUser, hostIp: string, dnsbl: string, dnsblListed: bool,
    senderAllowed: bool, spamBait: bool, addrAllowed: bool,
    addrAlias: Option<string>, relayListed: bool,
    ipUser: nat, ipUserRecent: bool, ipUserRestricted: bool,
    nameAlias: Option<string>, procMatch: Option<nat>, sub: Option<nat>, qwkHub: bool,
    user: UserFacts, connected: bool, twitList: string -> bool,
    logins: Logins, authAnswers: seq<string>, challenge: string)

  /** The look-ups with the session's relay user number. */
  function WithRelay(f: Facts, number: nat): (g: Facts)
    ensures g.relay.number == number
  {
    f.(relay := f.relay.(number := number))
  }

  // ---------------------------------------------------------------- the relay decision

  /** The conversion of an int to an unsigned short. */
  function UShort(v: int): (r: nat)
    ensures r < USHRT_LIMIT
    ensures 0 <= v < USHRT_LIMIT ==> r == v
  {
    if 0 <= v < USHRT_LIMIT then v else v % USHRT_LIMIT
  }

  /** The port of a "host:port" destination, as an unsigned short; None
      when there is no ':'. */
  function DestPort(d: string): (r: Option<nat>)
    ensures r.Some? ==> r.value < USHRT_LIMIT
  {
    match LastIndexOf(d, ':')
    case None => None
    case Some(c) => Some(UShort(Atoi(d[c + 1..])))
  }

  /** The host of a destination, without its ":port". */
  function DestHost(d: string): (r: string)
    ensures ':' in d ==> |r| < |d| && d[|r|] == ':' && ':' !in d[|r| + 1..]
    ensures ':' !in d ==> r == d
    ensures r == d[..|r|]
  {
    match LastIndexOf(d, ':')
    case None => d
    case Some(c) => d[..c]
  }

  /** The destination is this system: its host is the system's Internet
      address or host name, resolves to the server's address or is listed in
      domains.cfg, and it names the port the server listens on, or none. */
  predicate LocalDest(d: string, cfg: Config) {
    var h := DestHost(d);
    (IEq(h, cfg.sysInetAddr) || IEq(h, cfg.hostName) || cfg.resolvesHere(h) || cfg.inDomains(h))
    && (DestPort(d).None? || DestPort(d).value == cfg.serverPort)
  }

  /** The last ':' of "host:text" when neither part has one. */
  lemma ColonAt(h: string, t: string)
    requires ':' !in h && ':' !in t
    ensures var d := h + ":" + t;
      LastIndexOf(d, ':') == Some(|h|) && d[..|h|] == h && d[|h| + 1..] == t
  {
    var d := h + ":" + t;
    forall k | |h| < k < |d| ensures d[k] != ':' {
      assert d[k] == t[k - |h| - 1];
    }
    LastIndexOfAt(d, ':', |h|);
  }

  /** "host:port" read back. */
  lemma DestOf(h: string, n: nat)
    requires ':' !in h && n < USHRT_LIMIT
    ensures DestHost(h + ":" + Dec(n)) == h && DestPort(h + ":" + Dec(n)) == Some(n)
  {
    var t := Dec(n);
    assert ':' !in t by {
      forall k | 0 <= k < |t| ensures t[k] != ':' { assert IsDigit(t[k]); }
    }
    ColonAt(h, t);
    AtoiDec(n, []);
    assert t + [] == t;
  }

  /** A destination with an explicit port other than the server's is never
      local, whatever its host; the server's own name with no port or the
      server's port is. */
  lemma LocalDestPort(h: string, n: nat, cfg: Config)
    requires ':' !in h && n < USHRT_LIMIT
    ensures LocalDest(h + ":" + Dec(n), cfg) <==>
      (IEq(h, cfg.sysInetAddr) || IEq(h, cfg.hostName) || cfg.resolvesHere(h) || cfg.inDomains(h))
      && n == cfg.serverPort
    ensures IEq(h, cfg.sysInetAddr) ==> LocalDest(h, cfg)
  {
    DestOf(h, n);
  }

  /** The port an explicit ":port" is compared with, as written: the
      server's port as getsockname stores it, in network byte order; on a
      little-endian host that value has its two bytes swapped. */
  function StoredPort(port: nat, littleEndian: bool): (r: nat)
    requires port < USHRT_LIMIT
    ensures r < USHRT_LIMIT
  {
    if littleEndian then (port % 256) * 256 + port / 256 else port
  }

  /** The local-destination test as written: the parsed port, in host
      order, against the stored port; with no ':' the stored port itself. */
  predicate LocalDestAsWritten(d: string, cfg: Config, littleEndian: bool)
    requires cfg.serverPort < USHRT_LIMIT
  {
    var h := DestHost(d);
    var stored := StoredPort(cfg.serverPort, littleEndian);
    var port := match DestPort(d) case None => stored case Some(p) => p;
    (IEq(h, cfg.sysInetAddr) || IEq(h, cfg.hostName) || cfg.resolvesHere(h) || cfg.inDomains(h))
    && port == stored
  }

  /** On a little-endian host listening on port 25, an address that names
      the system with ":25" is taken for a remote destination, and one
      with ":6400" for a local one. */
  lemma ExplicitPortMisread(h: string, cfg: Config)
    requires ':' !in h && IEq(h, cfg.sysInetAddr) && cfg.serverPort == 25
    ensures !LocalDestAsWritten(h + ":25", cfg, true) && LocalDest(h + ":25", cfg)
    ensures LocalDestAsWritten(h + ":6400", cfg, true) && !LocalDest(h + ":6400", cfg)
  {
    assert StoredPort(25, true) == 6400;
    Dec25();
    Dec6400();
    PortOf(h, 25, ":25");
    PortOf(h, 6400, ":6400");
  }

  lemma Dec25()
    ensures ":" + Dec(25) == ":25"
  {
    assert Dec(2) == "2";
    assert Dec(25) == Dec(2) + [DigitChar(5)];
  }

  lemma Dec6400()
    ensures ":" + Dec(6400) == ":6400"
  {
    assert Dec(6) == "6";
    assert Dec(64) == Dec(6) + [DigitChar(4)];
    assert Dec(640) == Dec(64) + [DigitChar(0)];
    assert Dec(6400) == Dec(640) + [DigitChar(0)];
  }

  /** The destination "h:<n>" with the digits of `n` written out. */
  lemma PortOf(h: string, n: nat, suffix: string)
    requires ':' !in h && n < USHRT_LIMIT
    requires suffix == ":" + Dec(n)
    ensures DestHost(h + suffix) == h && DestPort(h + suffix) == Some(n)
  {
    Assoc(h, ":", Dec(n));
    DestOf(h, n);
  }

  /** Without an explicit port the written test and the intended one agree. */
  lemma NoPortAgrees(d: string, cfg: Config, littleEndian: bool)
    requires cfg.serverPort < USHRT_LIMIT && ':' !in d
    ensures LocalDestAsWritten(d, cfg, littleEndian) <==> LocalDest(d, cfg)
  {
    assert DestPort(d).None? && DestHost(d) == d;
  }

  /** The relay user after the look-up by IP address: when nobody has
      authenticated and the option is on, the user whose note holds the
      client's IP, if that user logged on within the past hour. */
  function RelayNumber(f: Facts, cfg: Config): nat {
    if f.relay.number == 0 && cfg.authViaIp then (if f.ipUserRecent then f.ipUser else 0)
    else f.relay.number
  }

  predicate RelayRestricted(f: Facts, cfg: Config) {
    if f.relay.number == 0 && cfg.authViaIp then f.ipUserRestricted else f.relay.restricted
  }

  /** Relaying to a foreign destination is allowed when an address alias
      forces it, when the client's host name or IP is in relay.cfg, or when
      relaying is enabled and the relay user is known and not G- or
      M-restricted. */
  predicate RelayPermitted(f: Facts, cfg: Config) {
    f.addrAlias.Some? || f.relayListed
    || (cfg.allowRelay && RelayNumber(f, cfg) != 0 && !RelayRestricted(f, cfg))
  }

  const RelayAuthRsp: string :=
    "553 Relaying through this server requires authentication.  Please authenticate before sending."
  const RelayDeniedRsp: string := "550 Relay not allowed."

  // ---------------------------------------------------------------- RCPT TO:

  datatype RcptOutcome =
    | Refused(reply: string)                        // answered; nothing changes
    | Dropped(reply: string)                        // answered; the session closes
    | Baited                                        // a spam-bait address: 250 OK, nothing recorded
    | Posted(sub: nat)                              // a "sub:" recipient: counted, not recorded
    | Added(rec: Rcpt, reply: string, telegram: bool)  // recorded and counted

  /** An outcome and the external processor whose match flag is raised. */
  datatype Decision = Decision(outcome: RcptOutcome, mark: Option<nat>)

  /** rcpt_to: the argument without leading white-space, in 127 bytes. */
  function RcptToText(arg: string): (r: string)
    ensures |r| <= 127
  {
    Take(SkipSpace(arg), 127)
  }

  function UnknownUser(arg: string): string {
    "550 Unknown User: " + RcptToText(arg)
  }

  /** The address before it is cut to 127 bytes, with the prefixes removed. */
  function FullAddress(arg: string): string {
    Headers.StripPrefixes(Headers.RcptText(arg)).0
  }

  /** The address the routing starts from: an address alias's value, or
      the address itself. */
  function Target(arg: string, f: Facts): string {
    match f.addrAlias case Some(a) => a case None => FullAddress(arg)
  }

  const TooManyRsp: string := "452 Too many recipients"

  /** The limits on the number of recipients (lines 3636-3669): the
      server's maximum, the relay user's pending e-mails, and the relay
      user's e-mails per day. */
  function Limits(rcptCount: nat, u: RelayUser, cfg: Config): (r: Option<string>)
    ensures cfg.maxRecipients != 0 && rcptCount >= cfg.maxRecipients ==> r == Some(TooManyRsp)
    ensures r.None? ==> cfg.maxRecipients == 0 || rcptCount < cfg.maxRecipients
    ensures r.None? && u.number != 0 && !u.exemptM ==> u.etoday + rcptCount < u.perDay
  {
    if cfg.maxRecipients != 0 && rcptCount >= cfg.maxRecipients then Some(TooManyRsp)
    else if cfg.maxRecipients != 0 && u.number != 0 && !u.exemptM && rcptCount + u.pendingSent > cfg.maxRecipients then
      Some("452 Too many pending emails sent")
    else if u.number != 0 && u.etoday + rcptCount >= u.perDay && !u.exemptM then
      Some("452 Too many emails today")
    else None
  }

  /** The checks of a RCPT TO: argument, in the order the session makes
      them. */
  function RcptDecision(st: State, cmd: Cmd, rcptCount: nat, arg: string, f: Facts, cfg: Config): (d: Decision)
    ensures Rank(st) < 2 ==> d.outcome == Refused(BadSeqRsp) && d.mark.None?
    ensures Rank(st) >= 2 && Headers.RcptArgument(arg).NoRecipient? ==> d.outcome == Refused(Headers.NoRecipientReply)
    ensures Rank(st) >= 2 && Headers.RcptArgument(arg).Recipient? && cfg.maxRecipients != 0 && rcptCount >= cfg.maxRecipients
      ==> d.outcome == Refused(TooManyRsp)
    ensures d.outcome.Added? || d.outcome.Posted? || d.outcome.Baited? ==>
      Rank(st) >= 2 && Headers.RcptArgument(arg).Recipient? && Limits(rcptCount, f.relay, cfg).None?
    ensures d.outcome.Baited? <==>
      Rank(st) >= 2 && Headers.RcptArgument(arg).Recipient? && Limits(rcptCount, f.relay, cfg).None? && f.spamBait
    ensures d.outcome.Added? || d.outcome.Posted? ==> !f.spamBait && (f.relay.number == 0 ==> f.addrAllowed)
    ensures d.outcome.Dropped? ==>
      (f.relay.number == 0 && f.dnsblListed && cfg.dnsblBadUser) || (cmd == Mail && !RelayPermitted(f, cfg))
    ensures d.outcome.Added? && d.outcome.rec.usernum == 0 && d.outcome.rec.netType == NetInternet ==>
      cmd == Mail && RelayPermitted(f, cfg) && RelayTarget(Target(arg, f)).Some?
      && !LocalDest(RelayTarget(Target(arg, f)).value, cfg)
      && d.outcome.rec == Rcpt(Headers.RcptArgument(arg).addr, 0, NetInternet, Target(arg, f))
    ensures d.outcome.Added? && d.outcome.rec.usernum != 0 ==> UserAccepts(cmd, f) && d.outcome.rec.usernum == f.user.number
    ensures d.outcome.Added? && d.outcome.telegram ==> cmd != Mail
  {
    if Rank(st) < 2 then Decision(Refused(BadSeqRsp), None)
    else match Headers.RcptArgument(arg)
      case NoRecipient => Decision(Refused(Headers.NoRecipientReply), None)
      case Recipient(addr, fwd, noFwd) =>
        match Limits(rcptCount, f.relay, cfg)
        case Some(reply) => Decision(Refused(reply), None)
        case None =>
          if f.spamBait then Decision(Baited, None)
          else if f.relay.number == 0 && !f.addrAllowed then Decision(Refused(UnknownUser(arg)), None)
          else if f.relay.number == 0 && f.dnsblListed && cfg.dnsblBadUser then
            Decision(Dropped("550 Mail from " + f.hostIp + " refused due to listing at " + f.dnsbl), None)
          else Route(cmd, arg, addr, fwd, noFwd, f, cfg)
  }

  /** Whether a RCPT TO: reaches the relay branch (lines 3723-3752), where
      an unauthenticated session looks its relay user up by IP address and
      keeps the number the look-up finds for the rest of the session. */
  predicate RelayReached(st: State, cmd: Cmd, rcptCount: nat, arg: string, f: Facts, cfg: Config) {
    Rank(st) >= 2 && Headers.RcptArgument(arg).Recipient? && Limits(rcptCount, f.relay, cfg).None?
    && !f.spamBait && !(f.relay.number == 0 && !f.addrAllowed)
    && !(f.relay.number == 0 && f.dnsblListed && cfg.dnsblBadUser)
    && cmd == Mail && RelayTarget(Target(arg, f)).Some? && !LocalDest(RelayTarget(Target(arg, f)).value, cfg)
  }

  /** The relay branch is the one that relays or drops for the relay rules. */
  lemma RelayReachedDecides(st: State, cmd: Cmd, rcptCount: nat, arg: string, f: Facts, cfg: Config)
    requires RelayReached(st, cmd, rcptCount, arg, f, cfg)
    ensures var d := RcptDecision(st, cmd, rcptCount, arg, f, cfg);
      (d.outcome.Added? <==> RelayPermitted(f, cfg)) && (d.outcome.Dropped? <==> !RelayPermitted(f, cfg))
    ensures var d := RcptDecision(st, cmd, rcptCount, arg, f, cfg);
      d.outcome.Added? ==> d.outcome.rec == Rcpt(Headers.RcptArgument(arg).addr, 0, NetInternet, Target(arg, f))
  {
  }

  /** The destination of an address with an '@': what follows its last '@',
      in 127 bytes. */
  function RelayTarget(p: string): Option<string> {
    match LastIndexOf(p, '@')
    case None => None
    case Some(at) => Some(Take(p[at + 1..], 127))
  }

  /** Lines 3723-3791: a MAIL transaction's address with an '@' for a
      destination that is not this system is relayed, when that is
      permitted, and recorded for the Internet; otherwise the part before
      the '@' is delivered here. */
  function Route(cmd: Cmd, arg: string, addr: string, fwd: bool, noFwd: bool, f: Facts, cfg: Config): (d: Decision)
    ensures d.outcome.Dropped? ==> cmd == Mail && !RelayPermitted(f, cfg)
    ensures d.outcome.Added? && d.outcome.rec.usernum == 0 && d.outcome.rec.netType == NetInternet ==>
      cmd == Mail && RelayPermitted(f, cfg) && RelayTarget(Target(arg, f)).Some?
      && !LocalDest(RelayTarget(Target(arg, f)).value, cfg)
      && d.outcome.rec == Rcpt(addr, 0, NetInternet, Target(arg, f))
    ensures d.outcome.Added? && d.outcome.rec.usernum != 0 ==> UserAccepts(cmd, f) && d.outcome.rec.usernum == f.user.number
    ensures d.outcome.Added? && d.outcome.telegram ==> cmd != Mail
    ensures !d.outcome.Baited?
  {
    var p := Target(arg, f);
    var dest := RelayTarget(p);
    if cmd == Mail && dest.Some? && !LocalDest(dest.value, cfg) then
      if RelayPermitted(f, cfg) then Decision(Added(Rcpt(addr, 0, NetInternet, p), OkRsp, false), None)
      else Decision(Dropped(if cfg.allowRelay then RelayAuthRsp else RelayDeniedRsp), None)
    else Local(cmd, arg, addr, fwd, noFwd, LocalPart(p), f, cfg)
  }

  /** An address before its last '@', or all of it without one. */
  function LocalPart(p: string): (r: string)
    ensures '@' in p ==> |r| < |p| && p[..|r|] == r && p[|r|] == '@' && '@' !in p[|r| + 1..]
    ensures '@' !in p ==> r == p
  {
    match LastIndexOf(p, '@')
    case None => p
    case Some(at) => p[..at]
  }

  /** SKIP_CHAR(p, '"'): leading quotes skipped. */
  function SkipQuotes(s: string): (r: string)
    ensures r == [] || r[0] != '"'
    ensures |r| <= |s| && r == s[|s| - |r|..]
  {
    if s != [] && s[0] == '"' then SkipQuotes(s[1..]) else s
  }

  predicate IsAlnum(c: char) {
    IsDigit(c) || 'a' <= c <= 'z' || 'A' <= c <= 'Z'
  }

  /** FIND_ALPHANUMERIC(p): characters skipped up to the first letter or digit. */
  function SkipToAlnum(s: string): (r: string)
    ensures r == [] || IsAlnum(r[0])
    ensures |r| <= |s| && r == s[|s| - |r|..]
  {
    if s != [] && !IsAlnum(s[0]) then SkipToAlnum(s[1..]) else s
  }

  /** A QWKnet-routed "qwkid!user" name: the recipient address after the
      '!' without quotes, and the hub part before it. */
  function Routing(q: string, addr: string): (r: (bool, string, string))
    ensures !r.0 ==> r.1 == addr && r.2 == q
    ensures r.0 <==> '!' in q
    ensures r.0 ==> '!' !in r.2 && |r.1| <= 127
  {
    match IndexOf(q, '!')
    case None => (false, addr, q)
    case Some(b) => (true, Take(TruncAt(SkipQuotes(q[b + 1..]), {'"'}), 127), q[..b])
  }

  /** A recipient that the user checks accept. */
  predicate UserAccepts(cmd: Cmd, f: Facts) {
    var u := f.user;
    u.number != 0 && u.number != Headers.UINT_MAX && u.read && !u.gone
    && (cmd == Mail ==> !u.mailboxFull && (f.relay.number == 0 ==> !u.mRestricted))
    && (cmd == Send ==> u.online)
  }

  /** Lines 3792-3888: QWKnet routing, the processor match, "sub:"
      recipients, processors and QWKnet hubs. */
  function Local(cmd: Cmd, arg: string, addr: string, fwd: bool, noFwd: bool, q: string, f: Facts, cfg: Config): (d: Decision)
    ensures d.outcome.Added? && d.outcome.rec.usernum != 0 ==> UserAccepts(cmd, f) && d.outcome.rec.usernum == f.user.number
    ensures d.outcome.Added? && d.outcome.rec.usernum == 0 ==> d.outcome.rec.netType != NetInternet
    ensures d.outcome.Added? && d.outcome.telegram ==> cmd != Mail
    ensures !d.outcome.Baited? && !d.outcome.Dropped?
    ensures d.mark == f.procMatch
  {
    var r := Routing(q, addr);
    var routed := r.0;
    var rcptAddr := r.1;
    var n1 := TruncAt(SkipToAlnum(r.2), {'"'});
    var n := match f.nameAlias case Some(a) => a case None => n1;
    if IPrefix("sub:", n) then
      match f.sub
      case None => Decision(Refused("550 Unknown sub-board: " + n[4..]), f.procMatch)
      case Some(i) => Decision(Posted(i), f.procMatch)
    else if f.procMatch.Some? then
      Decision(Added(Rcpt(rcptAddr, 0, NetNone, []), OkRsp, false), f.procMatch)
    else if routed && f.qwkHub then
      Decision(Added(Rcpt(rcptAddr, 0, NetQwk, n), OkRsp, false), f.procMatch)
    else Decision(Deliver(cmd, arg, rcptAddr, routed, fwd, noFwd, f, cfg), f.procMatch)
  }

  /** The user's netmail address is an Internet address outside this system. */
  predicate ForeignNetmail(u: UserFacts, cfg: Config) {
    match LastIndexOf(u.netmail, '@')
    case None => false
    case Some(at) => u.netmailInternet && Headers.Find(u.netmail[at..], cfg.sysInetAddr).None?
  }

  /** Lines 3890-4011: the checks of the local user and the record written
      for an accepted one, forwarded to the user's netmail address when
      that is configured and wanted. */
  function Deliver(cmd: Cmd, arg: string, rcptAddr: string, routed: bool, fwd: bool, noFwd: bool, f: Facts, cfg: Config): (o: RcptOutcome)
    ensures o.Added? ==> UserAccepts(cmd, f) && o.rec.usernum == f.user.number && o.rec.name == rcptAddr
    ensures o.Added? ==> (o.telegram <==> cmd != Mail)
    ensures o.Added? && o.rec.netType == NetInternet ==>
      o.rec.netAddr == f.user.netmail && !routed && !noFwd && cmd == Mail && ForeignNetmail(f.user, cfg)
    ensures o.Refused? || o.Added?
  {
    var u := f.user;
    if u.number == Headers.UINT_MAX || u.number == 0 || !u.read || u.gone then Refused(UnknownUser(arg))
    else if cmd == Mail && u.mRestricted && f.relay.number == 0 then Refused("550 Closed mailbox: " + RcptToText(arg))
    else if cmd == Mail && u.mailboxFull then Refused("450 Mailbox full: " + RcptToText(arg))
    else if cmd == Send && !u.online then Refused("450 User unavailable")
    else
      var telegram := cmd != Mail;
      if !telegram && !routed && !noFwd && cfg.fwdToNet && (u.netmailFlag || fwd) && ForeignNetmail(u, cfg) then
        Added(Rcpt(rcptAddr, u.number, NetInternet, u.netmail), "251 User not local; will forward to " + u.netmail, telegram)
      else if routed then Added(Rcpt(rcptAddr, u.number, NetQwk, u.alias), OkRsp, telegram)
      else Added(Rcpt(rcptAddr, u.number, NetNone, []), OkRsp, telegram)
  }

  /** The reply to a RCPT TO: (Baited and Posted answer 250 OK). */
  function RcptReply(o: RcptOutcome): string {
    match o
    case Refused(r) => r
    case Dropped(r) => r
    case Baited => OkRsp
    case Posted(_) => OkRsp
    case Added(_, r, _) => r
  }

  /** A recipient is counted when it is recorded or is a sub-board. */
  predicate Counted(o: RcptOutcome) {
    o.Added? || o.Posted?
  }

  /** mailproc_to_match[i] = TRUE */
  function Mark(m: seq<bool>, i: Option<nat>): (r: seq<bool>)
    ensures |r| == |m|
    ensures forall k :: 0 <= k < |m| ==> r[k] == (m[k] || (i == Some(k)))
  {
    match i
    case Some(k) => if k < |m| then m[k := true] else m
    case None => m
  }

  // ---------------------------------------------------------------- MAIL FROM: (as written)

  /** The two variables that say what kind of transaction is open. */
  datatype Txn = Txn(cmd: Cmd, telegram: bool)

  /** MAIL, SEND, SOML or SAML FROM: as written (lines 3558-3566): the
      command is set and the telegram flag is left as it was. */
  function FromAsWritten(t: Txn, c: Cmd): (r: Txn)
    ensures r.cmd == c && r.telegram == t.telegram
  {
    t.(cmd := c)
  }

  /** A recipient accepted for a local user (lines 3982-3983). */
  function UserAdded(t: Txn): (r: Txn)
    ensures r.cmd == t.cmd && (r.telegram <==> t.telegram || t.cmd != Mail)
  {
    t.(telegram := t.telegram || t.cmd != Mail)
  }

  /** After SEND FROM: and an accepted recipient, a MAIL FROM: leaves the
      telegram flag on, so the new mail transaction's DATA skips the header
      and its text is delivered as a telegram. */
  lemma MailAfterSendStaysTelegram()
    ensures var t := FromAsWritten(UserAdded(Txn(Send, false)), Mail);
            t.cmd == Mail && t.telegram && DataState(t.telegram) == DataBody
  {
  }

  /** DATA: a telegram has no header. */
  function DataState(telegram: bool): (s: State)
    ensures Rank(s) >= 4
    ensures s == DataHeader <==> !telegram
  {
    if telegram then DataBody else DataHeader
  }

  // ---------------------------------------------------------------- DATA

  /** The sender address DATA takes from the reverse path: after its last
      '<', before the first '>'. */
  function SenderAddr(reversePath: string): (r: string)
    ensures '<' !in r && '>' !in r && |r| <= 127
  {
    TruncAt(Take(AfterLast(reversePath, '<'), 127), {'>'})
  }

  /** The sender name: the address before its '@', empty without one. */
  function SenderName(addr: string): string {
    match IndexOf(addr, '@')
    case None => []
    case Some(i) => addr[..i]
  }

  /** The sender name is what precedes the address's first '@'. */
  lemma SenderNameParts(addr: string)
    ensures '@' !in SenderName(addr)
    ensures '@' in addr ==> (var r := SenderName(addr);
      |r| < |addr| && addr[..|r|] == r && addr[|r|] == '@')
    ensures '@' !in addr ==> SenderName(addr) == []
  {
  }

  /** "<a>" gives "a" back. */
  lemma SenderAddrOf(a: string)
    requires '<' !in a && '>' !in a && |a| <= 126
    ensures SenderAddr("<" + a + ">") == a
  {
    var rp := "<" + a + ">";
    assert rp[1..] == a + ">";
    forall k | 0 < k < |rp| ensures rp[k] != '<' {
      if k < |rp| - 1 { assert rp[k] == a[k - 1]; }
    }
    LastIndexOfAt(rp, '<', 0);
    assert AfterLast(rp, '<') == a + ">";
    TakeAll(a + ">", 127);
    forall k | 0 <= k < |a| ensures a[k] !in {'>'} {
    }
    TruncAtStop(a, ">", {'>'});
  }

  /** "<user@host>" gives "user@host" and "user". */
  lemma SenderOf(user: string, host: string)
    requires '@' !in user && '<' !in user + host && '>' !in user + host && |user| + 1 + |host| <= 126
    ensures SenderAddr("<" + user + "@" + host + ">") == user + "@" + host
    ensures SenderName(user + "@" + host) == user
  {
    var a := user + "@" + host;
    forall k | 0 <= k < |a| ensures a[k] != '<' && a[k] != '>' {
      assert a[k] in user + host || a[k] == '@';
    }
    SenderAddrOf(a);
    var rp := "<" + user + "@" + host + ">";
    assert rp == "<" + a + ">" by {
      Assoc("<", user + "@", host);
      Assoc("<", user, "@");
    }
    assert a[|user|] == '@';
    IndexOfFirst(a, '@', |user|);
    assert a[..|user|] == user;
  }

  const DataGoAhead: string := "354 send the mail data, end with <CRLF>.<CRLF>"
  const NoTextRsp: string := "554 No message text"
  const SyntaxRsp: string := "500 Syntax error"

  /** What a header line does to the captured text and the body encoding
      (lines 3232-3258): a Content-Transfer-Encoding line selects the
      decoder and is kept only for an encoding the session does not decode;
      every other line is kept. */
  function HeaderLine(line: string, enc: Codec.Encoding, signedChar: bool): (r: (string, Codec.Encoding))
    ensures r.0 == [] || r.0 == line + CRLF
    ensures r.0 == [] ==> r.1 != Codec.NoEncoding
    ensures r.1 != enc ==> Headers.GetHeaderField(line, 32, signedChar).Some?
  {
    match Headers.GetHeaderField(line, 32, signedChar)
    case Some((name, value)) =>
      if IEq(name, "CONTENT-TRANSFER-ENCODING") then
        if IEq(value, "base64") then ([], Codec.Base64)
        else if IEq(value, "quoted-printable") then ([], Codec.QuotedPrintable)
        else (line + CRLF, Codec.NoEncoding)
      else (line + CRLF, enc)
    case None => (line + CRLF, enc)
  }

  /** A From: header line (lines 3232-3236) gives the sender's name and
      address, each in 127 bytes. */
  function FromHeader(line: string, signedChar: bool): (r: Option<(string, string)>)
    ensures r.Some? ==> |r.value.0| <= 127 && |r.value.1| <= 127
  {
    match Headers.GetHeaderField(line, 32, signedChar)
    case Some((name, value)) => if IEq(name, "FROM") then Some(Headers.ParseMailAddress(value, 127, 127)) else None
    case None => None
  }

  /** A From: line, in any letter case, names the sender and is kept with
      the encoding unchanged. */
  lemma FromHeaderOf(name: string, value: string, enc: Codec.Encoding, signedChar: bool)
    requires IEq(name, "FROM") && ':' !in name
    requires value == [] || !IsSpace(value[0])
    ensures FromHeader(name + ": " + value, signedChar) == Some(Headers.ParseMailAddress(value, 127, 127))
    ensures HeaderLine(name + ": " + value, enc, signedChar) == (name + ": " + value + CRLF, enc)
  {
    assert ToUpper(name[0]) == 'F' && ToUpper(name[3]) == 'M';
    assert !IEq(name, "CONTENT-TRANSFER-ENCODING");
    Headers.GetHeaderFieldRoundTrip(name, value, 32, signedChar);
  }

  /** A Content-Transfer-Encoding line, in any letter case, naming base64
      or quoted-printable selects that decoder and is not kept. */
  lemma EncodingSelected(name: string, value: string, enc: Codec.Encoding, signedChar: bool)
    requires IEq(name, "CONTENT-TRANSFER-ENCODING") && ':' !in name
    requires IEq(value, "base64") || IEq(value, "quoted-printable")
    ensures HeaderLine(name + ": " + value, enc, signedChar)
         == ([], if IEq(value, "base64") then Codec.Base64 else Codec.QuotedPrintable)
  {
    assert ToUpper(name[0]) == 'C' && ToUpper(name[24]) == 'G';
    assert ToUpper(value[0]) == ToUpper('b') || ToUpper(value[0]) == ToUpper('q');
    Headers.GetHeaderFieldRoundTrip(name, value, 32, signedChar);
  }

  /** A Content-Transfer-Encoding line naming any other encoding is kept
      and turns decoding off. */
  lemma OtherEncodingKept(name: string, value: string, enc: Codec.Encoding, signedChar: bool)
    requires IEq(name, "CONTENT-TRANSFER-ENCODING") && ':' !in name
    requires !IEq(value, "base64") && !IEq(value, "quoted-printable")
    requires value == [] || !IsSpace(value[0])
    ensures HeaderLine(name + ": " + value, enc, signedChar) == (name + ": " + value + CRLF, Codec.NoEncoding)
  {
    assert ToUpper(name[0]) == 'C' && ToUpper(name[24]) == 'G';
    Headers.GetHeaderFieldRoundTrip(name, value, 32, signedChar);
  }

  const AuthUnknownRsp: string := "504 Unrecognized authentication type."
  const TurnRsp: string := "502 command not supported"

  /** The reply to a sender the session refuses. */
  const SenderRefusedRsp: string := "554 Sender not allowed."

  /** Whether twitlist.cfg names the sender, by name or by address. */
  predicate TwitListed(f: Facts, sender: string, senderAddr: string) {
    f.twitList(sender) || f.twitList(senderAddr)
  }

  // ---------------------------------------------------------------- AUTH

  /** AUTH LOGIN, AUTH PLAIN and AUTH CRAM-MD5. */
  datatype Mech = Login | Plain | CramMd5

  /** A user record as AUTH reads it: whether it is DELETED or INACTIVE,
      and the password. */
  datatype Account = Account(inactive: bool, pass: string)

  /** The user base as AUTH consults it: matchuser, and getuserdat (None
      when the record cannot be read). */
  datatype Logins = Logins(matchUser: string -> nat, record: nat -> Option<Account>)

  /** How an AUTH exchange ends: a bad argument (501, the session goes
      on), a failed login (535, the session ends), or the user number that
      authenticated (235). */
  datatype AuthResult = AuthBadArg | AuthRefused | AuthAccepted(user: nat)

  function AuthReply(r: AuthResult): string {
    match r
    case AuthBadArg => BadArgRsp
    case AuthRefused => BadAuthRsp
    case AuthAccepted(_) => AuthOk
  }

  const UserPrompt: string := "334 VXNlcm5hbWU6"
  const PassPrompt: string := "334 UGFzc3dvcmQ6"

  /** The checks on a user name and password (lines 3346-3377): the name
      must match a user whose record can be read and is neither deleted nor
      inactive, and the password must be that user's, case ignored. */
  function LoginCheck(name: string, pass: string, users: Logins): (r: AuthResult)
    ensures !r.AuthBadArg?
    ensures r.AuthAccepted? <==>
      var n := users.matchUser(name);
      n != 0 && users.record(n).Some? && !users.record(n).value.inactive && IEq(pass, users.record(n).value.pass)
    ensures r.AuthAccepted? ==> r.user == users.matchUser(name) && r.user != 0
  {
    var n := users.matchUser(name);
    if n == 0 then AuthRefused
    else match users.record(n)
      case None => AuthRefused
      case Some(a) => if a.inactive || !IEq(pass, a.pass) then AuthRefused else AuthAccepted(n)
  }

  /** The password is compared without regard to case. */
  lemma {:induction false} LoginIgnoresPasswordCase(name: string, pass: string, users: Logins)
    ensures LoginCheck(name, Upper(pass), users) == LoginCheck(name, pass, users)
  {
    var n := users.matchUser(name);
    if n != 0 && users.record(n).Some? {
      var a := users.record(n).value;
      IEqUpper(Upper(pass), a.pass);
      IEqUpper(pass, a.pass);
      UpperIdempotent(pass);
    }
  }

  lemma UpperIdempotent(s: string)
    ensures Upper(Upper(s)) == Upper(s)
  {
    forall i | 0 <= i < |s| ensures Upper(Upper(s))[i] == Upper(s)[i] {
      UpperTwice(s[i]);
    }
  }

  /** A base64 answer as b64_decode leaves it: None when the decoder
      reports an error or decodes nothing. */
  function Decoded(b64: string -> Option<string>, s: string): (r: Option<string>)
    ensures r.Some? ==> r.value != [] && b64(s) == r
    ensures r.None? ==> b64(s).None? || b64(s) == Some([])
  {
    match b64(s)
    case None => None
    case Some(d) => if d == [] then None else Some(d)
  }

  /** A decoded text as the 128-byte user_name and user_pass buffers hold it. */
  function Field(d: string): (r: string)
    ensures |r| <= 127 && NUL !in r
  {
    CStr(Take(d, 127))
  }

  /** AUTH PLAIN's argument (lines 3317-3344): the text after "AUTH PLAIN"
      without leading white-space is decoded into the 128-byte buffer and
      split at its NULs; anything else is a bad argument. */
  function PlainCredentials(line: string, b64: string -> Option<string>): (r: Option<(string, string)>)
    requires |line| >= 10
    ensures SkipSpace(line[10..]) == [] ==> r.None?
    ensures r.Some? <==> (SkipSpace(line[10..]) != [] && Decoded(b64, SkipSpace(line[10..])).Some? &&
                          Auth.PlainSplit(Auth.PlainBuffer(Decoded(b64, SkipSpace(line[10..])).value)).PlainLogin?)
    ensures r.Some? ==> var l := Auth.PlainSplit(Auth.PlainBuffer(Decoded(b64, SkipSpace(line[10..])).value));
      r.value == (l.user, l.pass)
  {
    var p := SkipSpace(line[10..]);
    if p == [] then None
    else match Decoded(b64, p)
      case None => None
      case Some(d) =>
        match Auth.PlainSplit(Auth.PlainBuffer(d))
        case PlainBadArg => None
        case PlainLogin(u, pw) => Some((u, pw))
  }

  /** AUTH LOGIN's two answers (lines 3294-3315): an empty or missing answer,
      or one the decoder refuses, is a bad argument. */
  function LoginAnswer(answers: seq<string>, i: nat, b64: string -> Option<string>): (r: Option<string>)
    ensures r.Some? ==> (i < |answers| && answers[i] != [] && Decoded(b64, answers[i]).Some? &&
                         r.value == Field(Decoded(b64, answers[i]).value))
    ensures r.None? ==> i >= |answers| || answers[i] == [] || Decoded(b64, answers[i]).None?
  {
    if i < |answers| && answers[i] != [] then
      match Decoded(b64, answers[i])
      case None => None
      case Some(d) => Some(Field(d))
    else None
  }

  /** The replies and the result of AUTH LOGIN: the user-name prompt, the
      password prompt once a user name is read, and the reply to the login. */
  function LoginExchange(answers: seq<string>, b64: string -> Option<string>, users: Logins): (r: (seq<string>, AuthResult))
    ensures LoginAnswer(answers, 0, b64).None? ==> r == ([UserPrompt, BadArgRsp], AuthBadArg)
    ensures LoginAnswer(answers, 0, b64).Some? && LoginAnswer(answers, 1, b64).None? ==>
      r == ([UserPrompt, PassPrompt, BadArgRsp], AuthBadArg)
    ensures LoginAnswer(answers, 0, b64).Some? && LoginAnswer(answers, 1, b64).Some? ==>
      var l := LoginCheck(LoginAnswer(answers, 0, b64).value, LoginAnswer(answers, 1, b64).value, users);
      r == ([UserPrompt, PassPrompt, AuthReply(l)], l)
  {
    match LoginAnswer(answers, 0, b64)
    case None => ([UserPrompt, BadArgRsp], AuthBadArg)
    case Some(name) =>
      match LoginAnswer(answers, 1, b64)
      case None => ([UserPrompt, PassPrompt, BadArgRsp], AuthBadArg)
      case Some(pass) =>
        var l := LoginCheck(name, pass, users);
        ([UserPrompt, PassPrompt, AuthReply(l)], l)
  }

  /** The CRAM-MD5 check of a decoded response (lines 3416-3463): the user
      named before its last space must be a readable, active user, and the
      digest after it must be the one keyed with that user's password. */
  function CramCheck(response: string, challenge: string, users: Logins, cfg: Config): (r: AuthResult)
    ensures !r.AuthBadArg?
    ensures r.AuthAccepted? <==>
      var n := users.matchUser(Auth.CramSplit(response).0);
      n != 0 && users.record(n).Some? && !users.record(n).value.inactive
      && Auth.CramMatches(response, users.record(n).value.pass, challenge, cfg.md5, cfg.hex)
    ensures r.AuthAccepted? ==> r.user == users.matchUser(Auth.CramSplit(response).0)
  {
    var n := users.matchUser(Auth.CramSplit(response).0);
    if n == 0 then AuthRefused
    else match users.record(n)
      case None => AuthRefused
      case Some(a) =>
        if a.inactive || !Auth.CramMatches(response, a.pass, challenge, cfg.md5, cfg.hex) then AuthRefused
        else AuthAccepted(n)
  }

  /** The replies and the result of AUTH CRAM-MD5: the challenge, base64
      encoded, and the reply to the client's answer. */
  function CramExchange(f: Facts, cfg: Config): (r: (seq<string>, AuthResult))
    ensures |r.0| == 2 && r.0[0] == "334 " + cfg.b64enc(f.challenge) && r.0[1] == AuthReply(r.1)
    ensures r.1.AuthBadArg? <==> |f.authAnswers| == 0 || f.authAnswers[0] == [] || Decoded(cfg.b64, f.authAnswers[0]).None?
    ensures !r.1.AuthBadArg? ==> r.1 == CramCheck(Decoded(cfg.b64, f.authAnswers[0]).value, f.challenge, f.logins, cfg)
  {
    var prompt := "334 " + cfg.b64enc(f.challenge);
    if |f.authAnswers| == 0 || f.authAnswers[0] == [] then ([prompt, BadArgRsp], AuthBadArg)
    else match Decoded(cfg.b64, f.authAnswers[0])
      case None => ([prompt, BadArgRsp], AuthBadArg)
      case Some(d) =>
        var c := CramCheck(d, f.challenge, f.logins, cfg);
        ([prompt, AuthReply(c)], c)
  }

  /** An AUTH command: its replies and how it ends. */
  function AuthExchange(m: Mech, line: string, f: Facts, cfg: Config): (r: (seq<string>, AuthResult))
    requires m == Plain ==> |line| >= 10
    ensures r.0 != [] && r.0[|r.0| - 1] == AuthReply(r.1)
    ensures m == Plain ==> r.0 == [AuthReply(r.1)]
    ensures m == Plain ==> (r.1.AuthBadArg? <==> PlainCredentials(line, cfg.b64).None?)
    ensures m == Plain && PlainCredentials(line, cfg.b64).Some? ==>
      r.1 == LoginCheck(PlainCredentials(line, cfg.b64).value.0, PlainCredentials(line, cfg.b64).value.1, f.logins)
    ensures m == Login ==> r == LoginExchange(f.authAnswers, cfg.b64, f.logins)
    ensures m == CramMd5 ==> r == CramExchange(f, cfg)
  {
    match m
    case Plain =>
      (match PlainCredentials(line, cfg.b64)
       case None => ([BadArgRsp], AuthBadArg)
       case Some((u, pw)) => var l := LoginCheck(u, pw, f.logins); ([AuthReply(l)], l))
    case Login => LoginExchange(f.authAnswers, cfg.b64, f.logins)
    case CramMd5 => CramExchange(f, cfg)
  }

  /** An RFC 4616 message names its user and password to AUTH PLAIN, and the
      login succeeds exactly when the user base accepts that pair. */
  lemma PlainAuthOf(enc: string, authz: string, user: string, pass: string, f: Facts, cfg: Config)
    requires enc != [] && !IsSpace(enc[0])
    requires cfg.b64(enc) == Some(authz + [NUL] + user + [NUL] + pass)
    requires NUL !in authz && NUL !in user && NUL !in pass && user != [] && pass != []
    requires |authz| + |user| + |pass| + 2 <= 127
    ensures PlainCredentials("AUTH PLAIN " + enc, cfg.b64) == Some((user, pass))
    ensures AuthExchange(Plain, "AUTH PLAIN " + enc, f, cfg).1 == LoginCheck(user, pass, f.logins)
  {
    var line := "AUTH PLAIN " + enc;
    assert line[10..] == " " + enc;
    SkipLeadingSpace(enc);
    Auth.PlainRoundTrip(authz, user, pass);
  }

  lemma SkipLeadingSpace(s: string)
    requires s != [] && !IsSpace(s[0])
    ensures SkipSpace(" " + s) == s
  {
    var t := " " + s;
    assert IsSpace(t[0]) && t[1..] == s;
    assert SpaceRun(t) == 1;
  }

  /** The response the delivery thread sends a relay (lines 4668-4680),
      computed with the account's password in lower case, logs the user in
      by CRAM-MD5, provided user, space and digest fit the 128-byte buffer. */
  lemma CramAuthOf(user: string, pass: string, n: nat, enc: string, f: Facts, cfg: Config)
    requires |f.authAnswers| > 0 && f.authAnswers[0] == enc && enc != []
    requires var h := cfg.hex(Auth.Hmac(cfg.md5, Auth.Bytes(Auth.SecretKey(pass)), Auth.Bytes(CStr(f.challenge))));
      ' ' !in h && NUL !in h && NUL !in user && |user| + 1 + |h| <= 127
    requires cfg.b64(enc) == Some(Auth.CramClientResponse(user, pass, f.challenge, cfg.md5, cfg.hex))
    requires f.logins.matchUser(user) == n && n != 0
    requires f.logins.record(n).Some? && !f.logins.record(n).value.inactive
    requires Lower(f.logins.record(n).value.pass) == pass
    ensures AuthExchange(CramMd5, "AUTH CRAM-MD5", f, cfg) == (["334 " + cfg.b64enc(f.challenge), AuthOk], AuthAccepted(n))
  {
    var resp := Auth.CramClientResponse(user, pass, f.challenge, cfg.md5, cfg.hex);
    assert resp != [];
    Auth.CramRoundTrip(user, pass, f.challenge, cfg.md5, cfg.hex);
    LowerIdempotent(f.logins.record(n).value.pass);
    assert Auth.CramMatches(resp, f.logins.record(n).value.pass, f.challenge, cfg.md5, cfg.hex);
  }
}

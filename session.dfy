/** The variables of one SMTP session of the mail server (smtp_thread in
    src/sbbs3/mailsrvr.c) and what each command line does to them. The
    decisions are the functions of module Smtp. */
module SmtpSession {
  import opened Text
  import opened Replies
  import opened Smtp
  import Headers
  import Codec

  /** A match flag per external mail processor, none set. */
  function NoMatches(n: nat): (r: seq<bool>)
    ensures |r| == n && forall k :: 0 <= k < n ==> !r[k]
  {
    seq(n, _ => false)
  }

  /** A command line is the C string before its first NUL: "QUIT", a NUL
      and anything after it is QUIT, which closes the session. */
  lemma QuitBeforeNul(t: string)
    ensures VerbOf(TrimEnd(CStr("QUIT" + [NUL] + t))) == QuitVerb
  {
    CStrAtNul("QUIT", t);
    TrimEndKeeps("QUIT");
  }

  /** The variables of one SMTP session, as a value. The recipient list file
      is `rcpts`; `toMatch` holds one match flag per external mail
      processor; `text` is the captured message text; `relayUser` is the
      number of the relay user (relay_user.number), 0 until a client
      authenticates. */
  datatype Vars = Vars(
    state: State, cmd: Cmd, rcptCount: nat, badcmds: nat, encoding: Codec.Encoding,
    rcpts: seq<Rcpt>, toMatch: seq<bool>, telegram: bool, esmtp: bool, helloName: string,
    reversePath: string, senderAddr: string, sender: string, subnum: Option<nat>,
    text: string, relayUser: nat)

  /** rcpt_count fits its short; a transaction is open exactly from MAIL
      FROM: to the end of DATA; a telegram is never a MAIL transaction. */
  predicate Consistent(rcptCount: nat, toMatch: seq<bool>, cmd: Cmd, state: State, telegram: bool, procCount: nat) {
    rcptCount < USHRT_LIMIT && |toMatch| == procCount
    && (cmd == NoCmd <==> Rank(state) < 2)
    && (telegram ==> cmd != Mail)
  }

  /** The invariant of the session's variables. */
  predicate Inv(s: Vars, procCount: nat) {
    Consistent(s.rcptCount, s.toMatch, s.cmd, s.state, s.telegram, procCount)
  }

  /** HELO (`extended` false) or EHLO (lines 3262-3290): the client's name,
      and a new session state with no transaction open. */
  function Greeted(s: Vars, line: string, extended: bool): Vars
    requires |line| >= 4
  {
    s.(helloName := Take(SkipSpace(line[4..]), 127), esmtp := extended,
       state := HeloDone, cmd := NoCmd, telegram := false, subnum := None)
  }

  /** RSET (lines 3500-3525): the transaction dropped, the recipient list
      emptied, the count, the encoding and every processor match flag
      cleared. */
  function Emptied(s: Vars, procCount: nat): Vars {
    s.(reversePath := [], state := HeloDone, cmd := NoCmd, telegram := false, subnum := None,
       rcpts := [], rcptCount := 0, encoding := Codec.NoEncoding,
       toMatch := NoMatches(procCount), badcmds := 0)
  }

  /** An unauthenticated client whose sender the address check refuses
      (lines 3539-3548). */
  predicate SenderRefused(s: Vars, f: Facts) {
    s.relayUser == 0 && !f.senderAllowed
  }

  /** A transaction opened by command `c` with reverse path `rp` (lines
      3550-3581): the recipient list, count, body encoding, bad-command
      count and match flags start afresh, and it is not a telegram (as
      written the flag is not cleared here). */
  function Opened(s: Vars, c: Cmd, rp: string, procCount: nat): Vars {
    s.(state := MailFrom, cmd := c, telegram := false, reversePath := rp,
       rcpts := [], rcptCount := 0, encoding := Codec.NoEncoding, badcmds := 0,
       toMatch := NoMatches(procCount))
  }

  /** The decision on RCPT TO: with argument `arg`, taken with the
      session's relay user. */
  function Decide(s: Vars, arg: string, f: Facts, cfg: Config): Decision
    requires s.rcptCount < USHRT_LIMIT
  {
    RcptDecision(s.state, s.cmd, s.rcptCount, arg, WithRelay(f, s.relayUser), cfg)
  }

  /** The variables after a RCPT decision: a recorded recipient is appended
      to the list and counted; a "sub:" recipient is counted only; a
      refused or dropped one changes nothing; a matched processor is
      marked. */
  function Applied(s: Vars, d: Decision): Vars
    requires s.rcptCount < USHRT_LIMIT
  {
    s.(rcpts := s.rcpts + (if d.outcome.Added? then [d.outcome.rec] else []),
       rcptCount := if Counted(d.outcome) then Inc16(s.rcptCount) else s.rcptCount,
       state := if d.outcome.Refused? || d.outcome.Dropped? then s.state else RcptTo,
       toMatch := Mark(s.toMatch, d.mark),
       telegram := s.telegram || (d.outcome.Added? && d.outcome.telegram),
       subnum := if d.outcome.Posted? then Some(d.outcome.sub) else s.subnum)
  }

  /** RCPT TO: (lines 3594-4012): the decision applied; in the relay branch
      the relay user an IP look-up finds is kept (lines 3746-3752). */
  function Recipiented(s: Vars, arg: string, f: Facts, cfg: Config): Vars
    requires s.rcptCount < USHRT_LIMIT
  {
    var g := WithRelay(f, s.relayUser);
    Applied(s, Decide(s, arg, f, cfg)).(
      relayUser := if RelayReached(s.state, s.cmd, s.rcptCount, arg, g, cfg) then RelayNumber(g, cfg)
                   else s.relayUser)
  }

  /** DATA (lines 4014-4052): the message text starts empty, the sender is
      taken from the reverse path, and the header is skipped for a
      telegram. */
  function DataStarted(s: Vars): Vars {
    var addr := SenderAddr(s.reversePath);
    s.(text := [], senderAddr := addr, sender := SenderName(addr), state := DataState(s.telegram))
  }

  /** An AUTH exchange that logs a user in makes it the relay user. */
  function Authed(s: Vars, a: AuthResult): Vars {
    s.(relayUser := if a.AuthAccepted? then a.user else s.relayUser)
  }

  /** HELO, EHLO, RSET and DATA: the replies, whether the session closes,
      and the new variables. */
  function Transacted(v: Verb, line: string, cfg: Config, s: Vars, procCount: nat): (seq<string>, bool, Vars)
    requires v.HeloVerb? || v.EhloVerb? ==> |line| >= 4
  {
    if v.HeloVerb? then (["250 " + cfg.hostName], false, Greeted(s, line, false))
    else if v.EhloVerb? then (EhloReply(cfg.hostName, cfg.maxMsgSize), false, Greeted(s, line, true))
    else if v.RsetVerb? then ([OkRsp], false, Emptied(s, procCount))
    else ([DataGoAhead], false, DataStarted(s))
  }

  /** A FROM: form: a refused sender is answered 554, nothing changes and
      the session closes; otherwise the transaction is opened. */
  function Mailed(c: Cmd, line: string, f: Facts, s: Vars, procCount: nat): (seq<string>, bool, Vars)
    requires |line| >= 10
  {
    if SenderRefused(s, f) then ([SenderRefusedRsp], true, s)
    else ([OkRsp], false, Opened(s, c, Headers.ReversePath(line[10..]), procCount))
  }

  /** RCPT TO: with argument `arg`: the decision's reply, closing the
      session exactly when the recipient is dropped. */
  function Addressed(arg: string, f: Facts, cfg: Config, s: Vars): (seq<string>, bool, Vars)
    requires s.rcptCount < USHRT_LIMIT
  {
    var d := Decide(s, arg, f, cfg);
    ([RcptReply(d.outcome)], d.outcome.Dropped?, Recipiented(s, arg, f, cfg))
  }

  /** The commands that leave the transaction as it is: AUTH closes exactly
      on a refusal and makes a logged-in user the relay user, QUIT closes,
      NOOP and TURN clear the bad-command count, and any other line is one
      more bad command, the tenth in a row closing the session. */
  function Others(v: Verb, line: string, f: Facts, cfg: Config, s: Vars): (seq<string>, bool, Vars)
    requires v == AuthVerb(Plain) ==> |line| >= 10
  {
    match v
    case AuthVerb(m) =>
      var ex := AuthExchange(m, line, f, cfg);
      (ex.0, ex.1.AuthRefused?, Authed(s, ex.1))
    case AuthUnknownVerb => ([AuthUnknownRsp], false, s)
    case QuitVerb => ([QuitRsp(cfg.hostName)], true, s)
    case NoopVerb => ([OkRsp], false, s.(badcmds := 0))
    case TurnVerb => ([TurnRsp], false, s.(badcmds := 0))
    case _ => ([SyntaxRsp], s.badcmds + 1 > 9, s.(badcmds := s.badcmds + 1))
  }

  /** The replies, whether the session closes, and the new variables, for
      an admitted command outside DATA (lines 3262-4059). */
  function Effect(v: Verb, line: string, f: Facts, cfg: Config, s: Vars, procCount: nat)
    : (seq<string>, bool, Vars)
    requires s.rcptCount < USHRT_LIMIT
    requires v.FromVerb? ==> |line| >= 10
    requires v.HeloVerb? || v.EhloVerb? ==> |line| >= 4
    requires v.RcptVerb? ==> |line| >= 8
    requires v == AuthVerb(Plain) ==> |line| >= 10
  {
    match v
    case HeloVerb | EhloVerb | RsetVerb | DataVerb => Transacted(v, line, cfg, s, procCount)
    case FromVerb(c) => Mailed(c, line, f, s, procCount)
    case RcptVerb => Addressed(line[8..], f, cfg, s)
    case _ => Others(v, line, f, cfg, s)
  }

  /** A line of the message (lines 3186-3258): the empty line that ends
      the header, and every line of the body, are body text; any other
      line is a header line. */
  function Captured(s: Vars, line: string, cfg: Config): Vars {
    if (line == [] && s.state == DataHeader) || s.state == DataBody then Bodied(s, line, cfg)
    else Headed(s, line, cfg.signedChar)
  }

  /** The empty line that ends the header starts the body with a blank
      line; a body line is un-stuffed and decoded into the text. */
  function Bodied(s: Vars, line: string, cfg: Config): Vars {
    s.(state := DataBody,
       text := s.text + if s.state == DataHeader then CRLF else Codec.CaptureBodyLine(line, s.encoding, cfg.b64))
  }

  /** A header line is kept in the text or selects the body encoding, and a
      From: line gives the sender's name and address. */
  function Headed(s: Vars, line: string, signedChar: bool): Vars {
    var h := HeaderLine(line, s.encoding, signedChar);
    var from := FromHeader(line, signedChar);
    s.(text := s.text + h.0, encoding := h.1,
       sender := if from.Some? then from.value.0 else s.sender,
       senderAddr := if from.Some? then from.value.1 else s.senderAddr)
  }

  /** The message is delivered: it has text, the client is still connected
      and the sender is not twit-listed. */
  predicate Delivered(s: Vars, f: Facts) {
    s.text != [] && f.connected && !TwitListed(f, s.sender, s.senderAddr)
  }

  /** The replies at the end of the message (lines 2536-2630): without text
      554 No message text; to a client that has disconnected nothing; a
      twit-listed sender is refused; a delivered telegram is answered 250
      OK, and a delivered mail message here nothing. */
  function EndReplies(s: Vars, f: Facts): seq<string> {
    if s.text == [] then [NoTextRsp]
    else if !f.connected then []
    else if TwitListed(f, s.sender, s.senderAddr) then [SenderRefusedRsp]
    else if s.telegram then [OkRsp]
    else []
  }

  /** The variables at the end of the message: the transaction is closed,
      and the telegram flag is cleared once the message is delivered (it
      survives every refusal). */
  function Ended(s: Vars, f: Facts): Vars {
    s.(state := HeloDone, cmd := NoCmd, telegram := s.telegram && !Delivered(s, f))
  }

  /** A line received in DATA (lines 2535-2543, 3186-3258): "." ends the
      message; any other line is captured and answered with nothing. */
  function LineEffect(line: string, f: Facts, cfg: Config, s: Vars): (seq<string>, Vars) {
    if line == "." then (EndReplies(s, f), Ended(s, f)) else ([], Captured(s, line, cfg))
  }

  /** One line as read, cut at its first NUL (a C string) and its trailing
      white-space trimmed: in DATA a line of the message, otherwise a
      command; a command the state does not admit is answered 503 and
      changes nothing. */
  function Step(raw: string, f: Facts, cfg: Config, s: Vars, procCount: nat): (seq<string>, bool, Vars)
    requires s.rcptCount < USHRT_LIMIT
  {
    var line := TrimEnd(CStr(raw));
    if Rank(s.state) >= 4 then
      var r := LineEffect(line, f, cfg, s);
      (r.0, false, r.1)
    else if !Admitted(s.state, VerbOf(line)) then ([BadSeqRsp], false, s)
    else Effect(VerbOf(line), line, f, cfg, s, procCount)
  }

  /** Every admitted command keeps the invariant. */
  lemma EffectKeepsInv(v: Verb, line: string, f: Facts, cfg: Config, s: Vars, procCount: nat)
    requires Inv(s, procCount) && Admitted(s.state, v)
    requires v.FromVerb? ==> v.cmd != NoCmd && |line| >= 10
    requires v.HeloVerb? || v.EhloVerb? ==> |line| >= 4
    requires v.RcptVerb? ==> |line| >= 8
    requires v == AuthVerb(Plain) ==> |line| >= 10
    ensures Inv(Effect(v, line, f, cfg, s, procCount).2, procCount)
  {
    if v.RcptVerb? {
      RcptKeepsInv(s, line[8..], f, cfg, procCount);
    }
  }

  /** RCPT TO: keeps the invariant: only an open transaction is filled,
      and a telegram recipient is never added to a MAIL transaction. */
  lemma RcptKeepsInv(s: Vars, arg: string, f: Facts, cfg: Config, procCount: nat)
    requires Inv(s, procCount)
    ensures Inv(Recipiented(s, arg, f, cfg), procCount)
  {
    var d := Decide(s, arg, f, cfg);
    assert Rank(s.state) < 2 ==> d.outcome.Refused?;
    AppliedKeepsInv(s, d, procCount);
  }

  /** A decision that refuses outside a transaction, and adds no telegram
      to a MAIL transaction, keeps the invariant when applied. */
  lemma AppliedKeepsInv(s: Vars, d: Decision, procCount: nat)
    requires Inv(s, procCount)
    requires d.outcome.Refused? || Rank(s.state) >= 2
    requires d.outcome.Added? && d.outcome.telegram ==> s.cmd != Mail
    ensures Inv(Applied(s, d), procCount)
  {
  }

  /** Every line of the message keeps the invariant. */
  lemma LineKeepsInv(line: string, f: Facts, cfg: Config, s: Vars, procCount: nat)
    requires Inv(s, procCount) && Rank(s.state) >= 4
    ensures Inv(LineEffect(line, f, cfg, s).1, procCount)
    ensures line != "." ==> Rank(LineEffect(line, f, cfg, s).1.state) >= 4
  {
  }

  /** A line of the message never touches the envelope: the recipients,
      their count, the reverse path, the match flags, the sub-board, the
      bad-command count and the client are as they were. */
  lemma DataKeepsEnvelope(line: string, f: Facts, cfg: Config, s: Vars)
    ensures var t := LineEffect(line, f, cfg, s).1;
      t.rcpts == s.rcpts && t.rcptCount == s.rcptCount && t.reversePath == s.reversePath
      && t.toMatch == s.toMatch && t.subnum == s.subnum && t.badcmds == s.badcmds
      && t.helloName == s.helloName && t.esmtp == s.esmtp && t.relayUser == s.relayUser
  {
  }

  /** HELO and EHLO drop the transaction but keep its recipients, their
      count, the reverse path and the text; a later RSET or FROM: is what
      empties them. */
  lemma HelloKeepsRecipients(s: Vars, line: string, extended: bool)
    requires |line| >= 4
    ensures var t := Greeted(s, line, extended);
      t.state == HeloDone && t.cmd == NoCmd
      && t.rcpts == s.rcpts && t.rcptCount == s.rcptCount && t.reversePath == s.reversePath
      && t.text == s.text && t.relayUser == s.relayUser
  {
  }

  /** RCPT TO: only ever appends: the new recipient list is the old one and
      at most one recipient more, and the count grows by at most one (as a
      16-bit count); the command, the reverse path and the text stay. */
  lemma RcptAppends(s: Vars, arg: string, f: Facts, cfg: Config)
    requires s.rcptCount < USHRT_LIMIT
    ensures var t := Recipiented(s, arg, f, cfg);
      |t.rcpts| <= |s.rcpts| + 1 && t.rcpts[..|s.rcpts|] == s.rcpts
      && (t.rcptCount == s.rcptCount || t.rcptCount == Inc16(s.rcptCount))
      && t.reversePath == s.reversePath && t.cmd == s.cmd && t.text == s.text
  {
    var d := Decide(s, arg, f, cfg);
    var t := Recipiented(s, arg, f, cfg);
    assert t.rcpts == s.rcpts + (if d.outcome.Added? then [d.outcome.rec] else []);
  }

  /** RSET twice is RSET once. */
  lemma ResetTwice(s: Vars, procCount: nat)
    ensures Emptied(Emptied(s, procCount), procCount) == Emptied(s, procCount)
  {
  }

  /** The line "." always closes the transaction, keeping the text, and
      the telegram flag stays set exactly when the message was not
      delivered. */
  lemma DotEndsTransaction(f: Facts, cfg: Config, s: Vars)
    ensures var t := LineEffect(".", f, cfg, s).1;
      t.state == HeloDone && t.cmd == NoCmd && t.text == s.text
      && (t.telegram <==> s.telegram && !Delivered(s, f))
  {
  }

  class Session {
    var state: State
    var cmd: Cmd
    var rcptCount: nat
    var badcmds: nat
    var encoding: Codec.Encoding
    var rcpts: seq<Rcpt>
    var toMatch: seq<bool>
    var telegram: bool
    var esmtp: bool
    var helloName: string
    var reversePath: string
    var senderAddr: string
    var sender: string
    var subnum: Option<nat>
    var text: string
    var relayUser: nat
    const procCount: nat

    /** The session's variables as a value. */
    function Snapshot(): Vars
      reads this
    {
      Vars(state, cmd, rcptCount, badcmds, encoding, rcpts, toMatch, telegram, esmtp, helloName,
           reversePath, senderAddr, sender, subnum, text, relayUser)
    }

    /** The invariant, on the fields it is about. */
    ghost predicate Valid()
      reads this`rcptCount, this`toMatch, this`cmd, this`state, this`telegram
    {
      Consistent(rcptCount, toMatch, cmd, state, telegram, procCount)
    }

    /** A new session; until HELO the hello name is the client's host name
        (line 2399). */
    constructor(procCount: nat, clientHost: string)
      ensures Valid() && this.procCount == procCount
      ensures Snapshot() == Vars(Initial, NoCmd, 0, 0, Codec.NoEncoding, [], NoMatches(procCount), false, false,
                                 Take(clientHost, 127), [], [], [], None, [], 0)
    {
      this.procCount := procCount;
      state := Initial;
      cmd := NoCmd;
      rcptCount := 0;
      badcmds := 0;
      encoding := Codec.NoEncoding;
      rcpts := [];
      toMatch := NoMatches(procCount);
      telegram := false;
      esmtp := false;
      helloName := Take(clientHost, 127);
      reversePath := [];
      senderAddr := [];
      sender := [];
      subnum := None;
      text := [];
      relayUser := 0;
    }

    /** One line as read: the replies, whether the session closes, and the
        whole new session are those of Step. */
    method Command(raw: string, f: Facts, cfg: Config) returns (replies: seq<string>, close: bool)
      requires Valid()
      modifies this
      ensures Valid()
      ensures (replies, close, Snapshot()) == Step(raw, f, cfg, old(Snapshot()), procCount)
    {
      var line := TrimEnd(CStr(raw));
      if Rank(state) >= 4 {
        replies := DataLine(line, f, cfg);
        return replies, false;
      }
      var v := VerbOf(line);
      if !Admitted(state, v) {
        return [BadSeqRsp], false;
      }
      replies, close := Execute(v, line, f, cfg);
      EffectKeepsInv(v, line, f, cfg, old(Snapshot()), procCount);
    }

    /** An admitted command outside DATA (lines 3262-4059): the replies,
        whether the session closes, and the whole new session are those of
        Effect. */
    method Execute(v: Verb, line: string, f: Facts, cfg: Config) returns (replies: seq<string>, close: bool)
      requires Valid() && Admitted(state, v)
      requires v.FromVerb? ==> v.cmd != NoCmd && |line| >= 10
      requires v.HeloVerb? || v.EhloVerb? ==> |line| >= 4
      requires v.RcptVerb? ==> |line| >= 8
      requires v == AuthVerb(Plain) ==> |line| >= 10
      modifies this
      ensures (replies, close, Snapshot()) == Effect(v, line, f, cfg, old(Snapshot()), procCount)
    {
      if v.HeloVerb? || v.EhloVerb? {
        replies, close := HeloCommand(v, line, cfg);
      } else if v.RsetVerb? {
        replies, close := RsetCommand(line, cfg);
      } else if v.DataVerb? {
        replies, close := DataCommand(line, cfg);
      } else if v.FromVerb? {
        var r;
        r, close := From(line, v.cmd, f);
        replies := [r];
      } else if v.RcptVerb? {
        replies, close := RcptCommand(line, f, cfg);
      } else {
        replies, close := Other(v, line, f, cfg);
      }
    }

    /** HELO and EHLO as commands. */
    method HeloCommand(v: Verb, line: string, cfg: Config) returns (replies: seq<string>, close: bool)
      requires (v.HeloVerb? || v.EhloVerb?) && |line| >= 4
      modifies this
      ensures (replies, close, Snapshot()) == Transacted(v, line, cfg, old(Snapshot()), procCount)
    {
      replies := Hello(line, v.EhloVerb?, cfg);
      close := false;
    }

    /** RSET as a command. */
    method RsetCommand(line: string, cfg: Config) returns (replies: seq<string>, close: bool)
      modifies this
      ensures (replies, close, Snapshot()) == Transacted(RsetVerb, line, cfg, old(Snapshot()), procCount)
    {
      Reset();
      replies, close := [OkRsp], false;
    }

    /** DATA as a command. */
    method DataCommand(line: string, cfg: Config) returns (replies: seq<string>, close: bool)
      modifies this
      ensures (replies, close, Snapshot()) == Transacted(DataVerb, line, cfg, old(Snapshot()), procCount)
    {
      Data();
      replies, close := [DataGoAhead], false;
    }

    /** RCPT TO: as a command: its replies, whether the session closes, and
        the whole new session are those of Effect. */
    method RcptCommand(line: string, f: Facts, cfg: Config) returns (replies: seq<string>, close: bool)
      requires rcptCount < USHRT_LIMIT && |line| >= 8
      modifies this
      ensures (replies, close, Snapshot()) == Addressed(line[8..], f, cfg, old(Snapshot()))
    {
      var r;
      r, close := Recipient(line[8..], f, cfg);
      replies := [r];
    }

    /** The commands that leave the transaction as it is. */
    method Other(v: Verb, line: string, f: Facts, cfg: Config) returns (replies: seq<string>, close: bool)
      requires rcptCount < USHRT_LIMIT
      requires !(v.HeloVerb? || v.EhloVerb? || v.RsetVerb? || v.FromVerb? || v.RcptVerb? || v.DataVerb?)
      requires v == AuthVerb(Plain) ==> |line| >= 10
      modifies this`badcmds, this`relayUser
      ensures (replies, close, Snapshot()) == Others(v, line, f, cfg, old(Snapshot()))
    {
      close := false;
      match v {
        case AuthVerb(m) =>
          var ex := AuthExchange(m, line, f, cfg);
          replies, close := ex.0, ex.1.AuthRefused?;
          if ex.1.AuthAccepted? {
            relayUser := ex.1.user;
          }
        case AuthUnknownVerb =>
          replies := [AuthUnknownRsp];
        case QuitVerb =>
          replies := [QuitRsp(cfg.hostName)];
          close := true;
        case NoopVerb =>
          replies := [OkRsp];
          badcmds := 0;
        case TurnVerb =>
          replies := [TurnRsp];
          badcmds := 0;
        case OtherVerb =>
          replies := [SyntaxRsp];
          close := BadCommand();
      }
    }

    /** HELO and EHLO (lines 3262-3290); EHLO lists the extensions. */
    method Hello(line: string, extended: bool, cfg: Config) returns (replies: seq<string>)
      requires |line| >= 4
      modifies this`helloName, this`esmtp, this`state, this`cmd, this`telegram, this`subnum
      ensures helloName == Take(SkipSpace(line[4..]), 127) && esmtp == extended
      ensures state == HeloDone && cmd == NoCmd && !telegram && subnum.None?
      ensures replies == if extended then EhloReply(cfg.hostName, cfg.maxMsgSize) else ["250 " + cfg.hostName]
    {
      var name := Take(SkipSpace(line[4..]), 127);
      if extended {
        replies := EhloReply(cfg.hostName, cfg.maxMsgSize);
      } else {
        replies := ["250 " + cfg.hostName];
      }
      helloName, esmtp, state, cmd, telegram, subnum := name, extended, HeloDone, NoCmd, false, None;
    }

    /** RSET (lines 3500-3525). */
    method Reset()
      modifies this`reversePath, this`state, this`cmd, this`telegram, this`subnum, this`rcpts
      modifies this`rcptCount, this`encoding, this`toMatch, this`badcmds
      ensures state == HeloDone && cmd == NoCmd && !telegram && subnum.None? && reversePath == []
      ensures rcpts == [] && rcptCount == 0 && encoding == Codec.NoEncoding && badcmds == 0
      ensures toMatch == NoMatches(procCount)
    {
      reversePath := [];
      state := HeloDone;
      cmd := NoCmd;
      telegram := false;
      subnum := None;
      rcpts := [];
      rcptCount := 0;
      encoding := Codec.NoEncoding;
      toMatch := NoMatches(procCount);
      badcmds := 0;
    }

    /** MAIL, SEND, SOML and SAML FROM: (lines 3527-3581): a refused sender
        is answered 554, nothing changes and the session closes; otherwise
        the transaction is opened. */
    method From(line: string, c: Cmd, f: Facts) returns (reply: string, close: bool)
      requires |line| >= 10
      modifies this`reversePath, this`state, this`cmd, this`telegram, this`rcpts
      modifies this`rcptCount, this`encoding, this`toMatch, this`badcmds
      ensures close == SenderRefused(old(Snapshot()), f)
      ensures reply == if close then SenderRefusedRsp else OkRsp
      ensures Snapshot() == if close then old(Snapshot())
                            else Opened(old(Snapshot()), c, Headers.ReversePath(line[10..]), procCount)
    {
      if relayUser == 0 && !f.senderAllowed {
        return SenderRefusedRsp, true;
      }
      Open(c, Headers.ReversePath(line[10..]));
      reply, close := OkRsp, false;
    }

    /** Opens a transaction by command `c` with reverse path `rp`. */
    method Open(c: Cmd, rp: string)
      modifies this`reversePath, this`state, this`cmd, this`telegram, this`rcpts
      modifies this`rcptCount, this`encoding, this`toMatch, this`badcmds
      ensures state == MailFrom && cmd == c && !telegram && reversePath == rp
      ensures rcpts == [] && rcptCount == 0 && encoding == Codec.NoEncoding && badcmds == 0
      ensures toMatch == NoMatches(procCount)
    {
      reversePath := rp;
      state := MailFrom;
      cmd := c;
      telegram := false;
      rcpts := [];
      rcptCount := 0;
      encoding := Codec.NoEncoding;
      toMatch := NoMatches(procCount);
      badcmds := 0;
    }

    /** RCPT TO: (lines 3594-4012): the decision of the checks, taken with
        the session's relay user, is applied and answered, closing the
        session exactly when the recipient is dropped; in the relay branch
        the relay user an IP look-up finds is kept (lines 3746-3752). */
    method Recipient(arg: string, f: Facts, cfg: Config) returns (reply: string, close: bool)
      requires rcptCount < USHRT_LIMIT
      modifies this`toMatch, this`subnum, this`rcptCount, this`state, this`rcpts, this`telegram, this`relayUser
      ensures reply == RcptReply(Decide(old(Snapshot()), arg, f, cfg).outcome)
      ensures close == Decide(old(Snapshot()), arg, f, cfg).outcome.Dropped?
      ensures Snapshot() == Recipiented(old(Snapshot()), arg, f, cfg)
    {
      var s := Snapshot();
      var g := WithRelay(f, relayUser);
      var d := Decide(s, arg, f, cfg);
      reply := RcptReply(d.outcome);
      close := d.outcome.Dropped?;
      var number := if RelayReached(state, cmd, rcptCount, arg, g, cfg) then RelayNumber(g, cfg) else relayUser;
      Apply(d, number);
    }

    /** Applies one RCPT decision to the session, with the relay user it
        leaves. */
    method Apply(d: Decision, relay: nat)
      requires rcptCount < USHRT_LIMIT
      modifies this`toMatch, this`subnum, this`rcptCount, this`state, this`rcpts, this`telegram, this`relayUser
      ensures Snapshot() == Applied(old(Snapshot()), d).(relayUser := relay)
    {
      toMatch, relayUser := Mark(toMatch, d.mark), relay;
      Record(d.outcome);
    }

    /** Records one RCPT outcome: a recorded recipient is appended and
        counted, a "sub:" recipient counted, a spam-bait address answered
        as accepted, and a refused or dropped one changes nothing. */
    method Record(o: RcptOutcome)
      requires rcptCount < USHRT_LIMIT
      modifies this`subnum, this`rcptCount, this`state, this`rcpts, this`telegram
      ensures rcpts == old(rcpts) + (if o.Added? then [o.rec] else [])
      ensures rcptCount == if Counted(o) then Inc16(old(rcptCount)) else old(rcptCount)
      ensures state == if o.Refused? || o.Dropped? then old(state) else RcptTo
      ensures telegram == (old(telegram) || (o.Added? && o.telegram))
      ensures subnum == if o.Posted? then Some(o.sub) else old(subnum)
    {
      match o {
        case Refused(_) =>
        case Dropped(_) =>
        case Baited =>
          state := RcptTo;
        case Posted(i) =>
          subnum := Some(i);
          rcptCount := Inc16(rcptCount);
          state := RcptTo;
        case Added(rec, _, tg) =>
          rcpts := rcpts + [rec];
          rcptCount := Inc16(rcptCount);
          telegram := telegram || tg;
          state := RcptTo;
      }
    }

    /** DATA (lines 4014-4052). */
    method Data()
      modifies this`text, this`senderAddr, this`sender, this`state
      ensures text == [] && state == DataState(telegram)
      ensures senderAddr == SenderAddr(reversePath) && sender == SenderName(senderAddr)
    {
      var addr := SenderAddr(reversePath);
      var s := DataState(telegram);
      text, senderAddr, sender, state := [], addr, SenderName(addr), s;
    }

    /** An unknown command (lines 4053-4059): one more bad command; the
        session closes after the tenth in a row. */
    method BadCommand() returns (close: bool)
      modifies this`badcmds
      ensures badcmds == old(badcmds) + 1 && (close <==> badcmds > 9)
    {
      badcmds := badcmds + 1;
      close := badcmds > 9;
    }

    /** A line received in DATA (lines 2535-2543, 3186-3258): the replies and
        the whole new session are those of LineEffect. */
    method DataLine(line: string, f: Facts, cfg: Config) returns (replies: seq<string>)
      requires Valid() && Rank(state) >= 4
      modifies this`telegram, this`state, this`cmd, this`text, this`encoding, this`sender, this`senderAddr
      ensures Valid()
      ensures (replies, Snapshot()) == LineEffect(line, f, cfg, old(Snapshot()))
    {
      if line == "." {
        replies := EndData(f);
      } else {
        Capture(line, cfg);
        replies := [];
      }
      LineKeepsInv(line, f, cfg, old(Snapshot()), procCount);
    }

    /** One line of the message, header or body. */
    method Capture(line: string, cfg: Config)
      modifies this`state, this`text, this`encoding, this`sender, this`senderAddr
      ensures Snapshot() == Captured(old(Snapshot()), line, cfg)
    {
      if (line == [] && state == DataHeader) || state == DataBody {
        BodyText(line, cfg);
      } else {
        Header(line, cfg.signedChar);
      }
    }

    /** The empty line that ends the header, or a line of the body. */
    method BodyText(line: string, cfg: Config)
      modifies this`state, this`text
      ensures Snapshot() == Bodied(old(Snapshot()), line, cfg)
    {
      if state == DataHeader {
        state, text := DataBody, text + CRLF;
      } else {
        state, text := DataBody, text + Codec.CaptureBodyLine(line, encoding, cfg.b64);
      }
    }

    /** A header line, as the whole new session state. */
    method Header(line: string, signedChar: bool)
      modifies this`text, this`encoding, this`sender, this`senderAddr
      ensures Snapshot() == Headed(old(Snapshot()), line, signedChar)
    {
      HeaderText(line, signedChar);
    }

    /** A header line: kept in the text or selecting the body encoding; a
        From: line also sets the sender. */
    method HeaderText(line: string, signedChar: bool)
      modifies this`text, this`encoding, this`sender, this`senderAddr
      ensures text == old(text) + HeaderLine(line, old(encoding), signedChar).0
      ensures encoding == HeaderLine(line, old(encoding), signedChar).1
      ensures FromHeader(line, signedChar).Some? ==> (sender, senderAddr) == FromHeader(line, signedChar).value
      ensures FromHeader(line, signedChar).None? ==> sender == old(sender) && senderAddr == old(senderAddr)
    {
      var h := HeaderLine(line, encoding, signedChar);
      text := text + h.0;
      encoding := h.1;
      match FromHeader(line, signedChar)
      case Some((name, addr)) =>
        sender, senderAddr := name, addr;
      case None =>
    }

    /** The end of the message (lines 2536-2630). */
    method EndData(f: Facts) returns (replies: seq<string>)
      modifies this`state, this`cmd, this`telegram
      ensures replies == EndReplies(old(Snapshot()), f)
      ensures state == HeloDone && cmd == NoCmd && telegram == (old(telegram) && !Delivered(old(Snapshot()), f))
    {
      state := HeloDone;
      cmd := NoCmd;
      if text == [] {
        return [NoTextRsp];
      }
      if !f.connected {
        return [];
      }
      if TwitListed(f, sender, senderAddr) {
        return [SenderRefusedRsp];
      }
      if telegram {
        telegram := false;
        return [OkRsp];
      }
      replies := [];
    }
  }
}

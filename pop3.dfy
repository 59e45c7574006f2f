/** The transaction state of a POP3 session of the mail server (pop3_thread
    in src/sbbs3/mailsrvr.c): the commands a logged-in user sends against the
    snapshot of the mailbox taken at login, and what they do to the message
    base's attribute words. */
module Pop3 {
  import opened Text
  import opened MsgAttr

  /** `ulong` is taken as 64 bits wide; (ulong)-1 means "no line limit". */
  const ULONG_LIMIT: nat := 0x1_0000_0000_0000_0000
  const ALL_LINES: nat := ULONG_LIMIT - 1

  /** Conversion of a `long` to `ulong`: two's complement wrap-around. */
  function ToULong(x: int): (u: nat)
    ensures u < ULONG_LIMIT && (0 <= x < ULONG_LIMIT ==> u == x)
    ensures -(ULONG_LIMIT as int) <= x < 0 ==> u == ULONG_LIMIT + x
  {
    x % ULONG_LIMIT
  }

  /** One entry of the login snapshot `mail[]`: the message number and the
      attributes read at login, with the text length the store reports and the
      length of the text once its Ctrl-A codes are removed. */
  datatype Mail = Mail(number: nat, attr: Attr, textLen: nat, plainLen: nat)

  /** What the message base holds now for a message of the snapshot. */
  datatype Stored = Stored(attr: Attr, netattr: NetAttr)

  predicate Deleted(s: Stored) { Has(s.attr, MSG_DELETE) }

  /** The commands of the transaction state, recognised in the order the
      source tests them, after trailing white-space is trimmed. */
  datatype Verb = Noop | Quit | Stat | Rset | List(uidl: bool) | Retr(top: bool) | Dele | Unsupported

  function VerbOf(line: string): Verb {
    if IEq(line, "NOOP") then Noop
    else if IEq(line, "QUIT") then Quit
    else if IEq(line, "STAT") then Stat
    else if IEq(line, "RSET") then Rset
    else if IPrefix("LIST", line) || IPrefix("UIDL", line) then List(!IPrefix("LIST", line))
    else if IPrefix("RETR ", line) || IPrefix("TOP ", line) then Retr(!IPrefix("RETR ", line))
    else if IPrefix("DELE ", line) then Dele
    else Unsupported
  }

  /** The argument text from offset `from`, leading white-space skipped. */
  function Arg(line: string, from: nat): (a: string)
    ensures a == [] || !IsSpace(a[0])
  {
    if from <= |line| then SkipSpace(line[from..]) else []
  }

  /** What follows the leading digits: the digits and it make up `s`, and it
      does not start with a digit. */
  function SkipDigits(s: string): (r: string)
    ensures Digits(s) + r == s
    ensures r == [] || !IsDigit(r[0])
  {
    s[|Digits(s)|..]
  }

  const NoSuchMsg: string := "-ERR no such message"
  const MsgDeletedRsp: string := "-ERR message deleted"
  const PopOk: string := "+OK"
  const FollowsRsp: string := "+OK message follows"

  function StatReply(msgs: nat, bytes: nat): string {
    "+OK " + Dec(msgs) + " " + Dec(bytes)
  }

  function CountReply(msgs: nat, bytes: nat): string {
    "+OK " + Dec(msgs) + " messages (" + Dec(bytes) + " bytes)"
  }

  function UnsupportedReply(line: string): string {
    "-ERR UNSUPPORTED COMMAND: " + line
  }

  /** What LIST shows of a message (its text length) and what UIDL shows
      (its message number). */
  function ListValue(m: Mail, uidl: bool): nat {
    if uidl then m.number else m.textLen
  }

  /** A line of the full listing: the message's position, then its value. */
  function Entry(k: nat, value: nat): string {
    Dec(k + 1) + " " + Dec(value)
  }

  /** The entries of the full listing for the first `n` messages: every
      message not marked deleted, in order. */
  function Listing(mail: seq<Mail>, s: seq<Stored>, uidl: bool, n: nat): (r: seq<string>)
    requires |s| == |mail| && n <= |mail|
    ensures |r| <= n
  {
    if n == 0 then []
    else
      var front := Listing(mail, s, uidl, n - 1);
      if Deleted(s[n - 1]) then front else front + [Entry(n - 1, ListValue(mail[n - 1], uidl))]
  }

  /** The reply to LIST n or UIDL n. */
  function ListOneReply(mail: seq<Mail>, s: seq<Stored>, uidl: bool, n: int): string
    requires |s| == |mail|
  {
    if n < 1 || n > |mail| then NoSuchMsg
    else if Deleted(s[n - 1]) then MsgDeletedRsp
    else "+OK " + Dec(n) + " " + Dec(ListValue(mail[n - 1], uidl))
  }

  /** LIST and UIDL name one message exactly when a digit follows them. */
  predicate ListsOne(line: string) {
    var a := Arg(line, 4);
    a != [] && IsDigit(a[0])
  }

  /** The outcome of RETR and TOP: the message and the line limit passed to
      the sender, or the refusal. */
  datatype Retrieval = NoSuch | WasDeleted | Send(index: nat, maxLines: nat)

  /** The line count of TOP: the number after the message number (the digits
      of the message number skipped, then white-space), as an unsigned long;
      RETR has no limit. */
  function LinesArg(line: string, top: bool): (n: nat)
    ensures n < ULONG_LIMIT
  {
    if top then ToULong(Atoi(SkipSpace(SkipDigits(Arg(line, 4))))) else ALL_LINES
  }

  /** A TOP that asks for at least as many lines as the message has bytes is
      read as a request for the whole message (lines 1224-1226). */
  function Capped(lines: nat, plainLen: nat): (n: nat)
    ensures n == lines || n == ALL_LINES
    ensures n == ALL_LINES <==> lines == ALL_LINES || (lines > 0 && lines >= plainLen)
  {
    if lines > 0 && lines >= plainLen then ALL_LINES else lines
  }

  function RetrPlan(mail: seq<Mail>, s: seq<Stored>, line: string, top: bool): (r: Retrieval)
    requires |s| == |mail|
    ensures r.Send? ==> r.index < |mail| && !Deleted(s[r.index])
  {
    PlanFor(mail, s, Atoi(Arg(line, 4)), LinesArg(line, top))
  }

  /** The plan for message number `n` with the line count `lines`. */
  function PlanFor(mail: seq<Mail>, s: seq<Stored>, n: int, lines: nat): (r: Retrieval)
    requires |s| == |mail|
    ensures r.Send? ==> r.index < |mail| && !Deleted(s[r.index])
  {
    if n < 1 || n > |mail| then NoSuch
    else if Deleted(s[n - 1]) then WasDeleted
    else Send(n - 1, Capped(lines, mail[n - 1].plainLen))
  }

  function PlanReply(r: Retrieval): string {
    match r
    case NoSuch => NoSuchMsg
    case WasDeleted => MsgDeletedRsp
    case Send(_, _) => FollowsRsp
  }

  /** After a transfer the message is marked read and sent, unless a limit
      was given and fewer lines than it went out (lines 1232-1262). */
  predicate Marks(maxLines: nat, sent: nat) {
    maxLines == ALL_LINES || sent >= maxLines
  }

  /** DELE: only the delete bit of message `i` is set. */
  function MarkDeleted(s: seq<Stored>, i: nat): (r: seq<Stored>)
    requires i < |s|
    ensures |r| == |s| && Deleted(r[i]) && r[i].netattr == s[i].netattr
    ensures (r[i].attr ^ s[i].attr) & !MSG_DELETE == 0
    ensures forall j :: 0 <= j < |s| && j != i ==> r[j] == s[j]
  {
    s[i := s[i].(attr := s[i].attr | MSG_DELETE)]
  }

  /** A completed transfer: the read bit and the sent net bit are set. */
  function MarkRead(s: seq<Stored>, i: nat): (r: seq<Stored>)
    requires i < |s|
    ensures |r| == |s| && Has(r[i].attr, MSG_READ) && HasNet(r[i].netattr, MSG_SENT)
    ensures (r[i].attr ^ s[i].attr) & !MSG_READ == 0 && (r[i].netattr ^ s[i].netattr) & !MSG_SENT == 0
    ensures forall j :: 0 <= j < |s| && j != i ==> r[j] == s[j]
  {
    s[i := Stored(s[i].attr | MSG_READ, s[i].netattr | MSG_SENT)]
  }

  /** RSET: every message's attributes are those of the login snapshot; the
      net attributes stay. */
  function Restored(mail: seq<Mail>, s: seq<Stored>): (r: seq<Stored>)
    requires |s| == |mail|
    ensures |r| == |s|
  {
    seq(|s|, i requires 0 <= i < |s| => s[i].(attr := mail[i].attr))
  }

  /** The byte total of the first `n` messages, reported by STAT. */
  function TotalBytes(mail: seq<Mail>, n: nat): nat
    requires n <= |mail|
  {
    if n == 0 then 0 else TotalBytes(mail, n - 1) + mail[n - 1].textLen
  }

  /** The line of the full listing for message k names k + 1 first. */
  lemma EntryNumber(k: nat, value: nat)
    ensures Atoi(Entry(k, value)) == k + 1
  {
    assert Entry(k, value) == Dec(k + 1) + (" " + Dec(value));
    AtoiDec(k + 1, " " + Dec(value));
  }

  /** Different positions give different listing lines. */
  lemma EntryInjective(j: nat, v: nat, k: nat, w: nat)
    requires Entry(j, v) == Entry(k, w)
    ensures j == k
  {
    EntryNumber(j, v);
    EntryNumber(k, w);
  }

  /** The full listing names exactly the messages not marked deleted. */
  lemma {:induction false} ListingExactly(mail: seq<Mail>, s: seq<Stored>, uidl: bool, n: nat, k: nat)
    requires |s| == |mail| && n <= |mail| && k < |mail|
    ensures Entry(k, ListValue(mail[k], uidl)) in Listing(mail, s, uidl, n) <==> k < n && !Deleted(s[k])
  {
    if n > 0 {
      ListingExactly(mail, s, uidl, n - 1, k);
      var e := Entry(k, ListValue(mail[k], uidl));
      var last := Entry(n - 1, ListValue(mail[n - 1], uidl));
      var front := Listing(mail, s, uidl, n - 1);
      var tail := if Deleted(s[n - 1]) then [] else [last];
      assert Listing(mail, s, uidl, n) == front + tail by {
        if Deleted(s[n - 1]) { Unit(front); }
      }
      assert e in front + tail <==> e in front || e in tail;
      if e in tail {
        EntryInjective(k, ListValue(mail[k], uidl), n - 1, ListValue(mail[n - 1], uidl));
      }
    }
  }

  /** RSET undoes DELE. */
  lemma ResetUndoesDelete(mail: seq<Mail>, s: seq<Stored>, i: nat)
    requires |s| == |mail| && i < |s|
    ensures Restored(mail, MarkDeleted(s, i)) == Restored(mail, s)
  {
    var a := Restored(mail, MarkDeleted(s, i));
    var b := Restored(mail, s);
    assert forall j :: 0 <= j < |s| ==> a[j] == b[j];
  }

  /** A message marked deleted is refused by LIST n, UIDL n, RETR and TOP, and
      missing from the full listing. */
  lemma DeletedRefused(mail: seq<Mail>, s: seq<Stored>, i: nat, line: string, uidl: bool, top: bool)
    requires |s| == |mail| && i < |s| && Atoi(Arg(line, 4)) == i + 1
    ensures ListOneReply(mail, MarkDeleted(s, i), uidl, i + 1) == MsgDeletedRsp
    ensures RetrPlan(mail, MarkDeleted(s, i), line, top) == WasDeleted
    ensures Entry(i, ListValue(mail[i], uidl)) !in Listing(mail, MarkDeleted(s, i), uidl, |mail|)
  {
    ListingExactly(mail, MarkDeleted(s, i), uidl, |mail|, i);
  }

  /** A number outside 1..msgs is no message. */
  lemma OutOfRange(mail: seq<Mail>, s: seq<Stored>, line: string, uidl: bool, top: bool)
    requires |s| == |mail|
    requires Atoi(Arg(line, 4)) < 1 || Atoi(Arg(line, 4)) > |mail|
    ensures ListOneReply(mail, s, uidl, Atoi(Arg(line, 4))) == NoSuchMsg
    ensures RetrPlan(mail, s, line, top) == NoSuch
  {
  }

  /** Skipping the white-space of " " + t leaves t. */
  lemma SkipOneSpace(t: string)
    requires t == [] || !IsSpace(t[0])
    ensures SkipSpace(" " + t) == t
  {
    var s := " " + t;
    assert SpaceFrom(s, 1) == 1;
  }

  /** TOP n k asks for message n with k lines, and for the whole message when
      k is at least the length of its text (a client that sends a byte count). */
  lemma TopArguments(mail: seq<Mail>, s: seq<Stored>, n: nat, k: nat)
    requires |s| == |mail| && 1 <= n <= |mail| && !Deleted(s[n - 1]) && k < ULONG_LIMIT
    ensures RetrPlan(mail, s, "TOP " + Dec(n) + " " + Dec(k), true)
      == Send(n - 1, if k > 0 && k >= mail[n - 1].plainLen then ALL_LINES else k)
  {
    var line := "TOP " + Dec(n) + " " + Dec(k);
    TopParse(line, n, k);
    PlanOf(mail, s, line, true, n, k);
  }

  /** The plan of RETR or TOP from the two numbers read from its line. */
  lemma PlanOf(mail: seq<Mail>, s: seq<Stored>, line: string, top: bool, n: nat, k: nat)
    requires |s| == |mail| && 1 <= n <= |mail| && !Deleted(s[n - 1])
    requires Atoi(Arg(line, 4)) == n && LinesArg(line, top) == k
    ensures RetrPlan(mail, s, line, top) == Send(n - 1, Capped(k, mail[n - 1].plainLen))
  {
  }

  /** The argument of a command word of `from` characters. */
  lemma ArgAfter(p: string, a: string, from: nat)
    requires |p| == from && (a == [] || !IsSpace(a[0]))
    ensures Arg(p + a, from) == a
  {
    assert (p + a)[from..] == a;
    SkipSpaceNone(a);
  }

  /** The two numbers of TOP n k are read back as n and k. */
  lemma TopParse(line: string, n: nat, k: nat)
    requires k < ULONG_LIMIT && line == "TOP " + Dec(n) + " " + Dec(k)
    ensures Atoi(Arg(line, 4)) == n
    ensures LinesArg(line, true) == k
  {
    var a := Dec(n) + (" " + Dec(k));
    assert line == "TOP " + a by {
      Assoc("TOP " + Dec(n), " ", Dec(k));
      Assoc("TOP ", Dec(n), " " + Dec(k));
    }
    assert a[0] == Dec(n)[0];
    ArgAfter("TOP ", a, 4);
    AtoiDec(n, " " + Dec(k));
    TopCount(n, k);
  }

  /** After the digits of n and the space, k is what is left. */
  lemma TopCount(n: nat, k: nat)
    ensures SkipSpace(SkipDigits(Dec(n) + (" " + Dec(k)))) == Dec(k)
    ensures Atoi(Dec(k)) == k
  {
    var rest := " " + Dec(k);
    assert rest[0] == ' ';
    SkipDigitsOf(Dec(n), rest);
    SkipOneSpace(Dec(k));
    AtoiAlone(k);
  }

  /** Skipping the digits of d + rest leaves rest. */
  lemma SkipDigitsOf(d: string, rest: string)
    requires forall j :: 0 <= j < |d| ==> IsDigit(d[j])
    requires rest == [] || !IsDigit(rest[0])
    ensures SkipDigits(d + rest) == rest
  {
    DigitRunAll(d, rest);
    assert (d + rest)[|d|..] == rest;
  }

  lemma AtoiAlone(k: nat)
    ensures Atoi(Dec(k)) == k
  {
    AtoiDec(k, []);
    assert Dec(k) + [] == Dec(k);
  }

  /** RETR n sends the whole of message n, and the transfer always marks it. */
  lemma RetrWhole(mail: seq<Mail>, s: seq<Stored>, line: string, sent: nat)
    requires |s| == |mail|
    requires RetrPlan(mail, s, line, false).Send?
    ensures RetrPlan(mail, s, line, false).maxLines == ALL_LINES
    ensures Marks(RetrPlan(mail, s, line, false).maxLines, sent)
  {
  }

  /** A command line is the C string before its first NUL: "QUIT", a NUL
      and anything after it is QUIT. */
  lemma QuitBeforeNul(t: string)
    ensures VerbOf(TrimEnd(CStr("QUIT" + [NUL] + t))) == Quit
  {
    CStrAtNul("QUIT", t);
    TrimEndKeeps("QUIT");
  }

  /** The transaction state over one mailbox snapshot. `base` is the message
      base's attribute record for each message of the snapshot. */
  class Transaction {
    const mail: seq<Mail>
    const bytes: nat
    const base: array<Stored>

    ghost predicate Valid() {
      base.Length == |mail|
    }

    /** Entering the transaction state: the byte total of the snapshot is
        counted once (lines 987-1011). */
    constructor(mail: seq<Mail>, base: array<Stored>)
      requires base.Length == |mail|
      ensures Valid() && this.mail == mail && this.base == base
      ensures bytes == TotalBytes(mail, |mail|)
    {
      var total := 0;
      var l := 0;
      while l < |mail|
        invariant l <= |mail| && total == TotalBytes(mail, l)
      {
        total := total + mail[l].textLen;
        l := l + 1;
      }
      this.mail := mail;
      this.base := base;
      bytes := total;
    }

    /** One command line, cut at its first NUL and trimmed at its end
        as the C string is. STAT reports the snapshot's totals, also after
        DELE; the message text of a transfer is sent by the caller. */
    method Command(raw: string, sent: nat) returns (replies: seq<string>, transfer: Option<Retrieval>, close: bool)
      requires Valid()
      modifies base
      ensures close <==> VerbOf(TrimEnd(CStr(raw))) == Quit
      ensures transfer.Some? ==> VerbOf(TrimEnd(CStr(raw))).Retr? && transfer.value.Send?
      ensures VerbOf(TrimEnd(CStr(raw))) in {Noop, Quit} ==> replies == [PopOk] && unchanged(base)
      ensures VerbOf(TrimEnd(CStr(raw))) == Stat ==> replies == [StatReply(|mail|, bytes)] && unchanged(base)
      ensures VerbOf(TrimEnd(CStr(raw))) == Rset ==> (replies == [CountReply(|mail|, bytes)]
        && base[..] == Restored(mail, old(base[..])))
      ensures VerbOf(TrimEnd(CStr(raw))).List? ==> unchanged(base) && replies == ListReplies(TrimEnd(CStr(raw)), VerbOf(TrimEnd(CStr(raw))).uidl)
      ensures VerbOf(TrimEnd(CStr(raw))).Retr? ==> Retrieved(TrimEnd(CStr(raw)), VerbOf(TrimEnd(CStr(raw))).top, sent, old(base[..]), replies, transfer)
      ensures VerbOf(TrimEnd(CStr(raw))) == Dele ==> Removed(Atoi(Arg(TrimEnd(CStr(raw)), 5)), old(base[..]), replies)
      ensures VerbOf(TrimEnd(CStr(raw))) == Unsupported ==> replies == [UnsupportedReply(TrimEnd(CStr(raw)))] && unchanged(base)
    {
      var line := TrimEnd(CStr(raw));
      var v := VerbOf(line);
      transfer := None;
      close := v == Quit;
      match v
      case Noop => replies := [PopOk];
      case Quit => replies := [PopOk];
      case Stat => replies := [StatReply(|mail|, bytes)];
      case Rset =>
        Reset();
        replies := [CountReply(|mail|, bytes)];
      case List(uidl) => replies := ListCmd(line, uidl);
      case Retr(top) =>
        var r;
        r, transfer := Retrieve(line, top, sent);
        replies := [r];
      case Dele =>
        var r := Delete(Atoi(Arg(line, 5)));
        replies := [r];
      case Unsupported => replies := [UnsupportedReply(line)];
    }

    ghost function ListReplies(line: string, uidl: bool): seq<string>
      requires Valid()
      reads base
    {
      if ListsOne(line) then [ListOneReply(mail, base[..], uidl, Atoi(Arg(line, 4)))]
      else [CountReply(|mail|, bytes)] + Listing(mail, base[..], uidl, |mail|) + ["."]
    }

    /** The reply and new attributes of RETR or TOP, given the attributes
        before it and the line count the sender reports. */
    ghost predicate Retrieved(line: string, top: bool, sent: nat, s0: seq<Stored>, replies: seq<string>, transfer: Option<Retrieval>)
      requires Valid()
      reads base
    {
      |s0| == |mail|
      && var plan := RetrPlan(mail, s0, line, top);
      replies == [PlanReply(plan)]
      && transfer == (if plan.Send? then Some(plan) else None)
      && base[..] == (if plan.Send? && Marks(plan.maxLines, sent) then MarkRead(s0, plan.index) else s0)
    }

    /** The reply and new attributes of DELE n. */
    ghost predicate Removed(n: int, s0: seq<Stored>, replies: seq<string>)
      requires Valid()
      reads base
    {
      |s0| == |mail|
      && if 1 <= n <= |mail| then replies == [PopOk] && base[..] == MarkDeleted(s0, n - 1)
      else replies == [NoSuchMsg] && base[..] == s0
    }

    /** RSET writes the snapshot's attributes back, message by message
        (lines 1040-1078). */
    method Reset()
      requires Valid()
      modifies base
      ensures base[..] == Restored(mail, old(base[..]))
    {
      var l := 0;
      while l < base.Length
        invariant l <= base.Length
        invariant forall j :: 0 <= j < l ==> base[j] == old(base[j]).(attr := mail[j].attr)
        invariant forall j :: l <= j < base.Length ==> base[j] == old(base[j])
      {
        base[l] := base[l].(attr := mail[l].attr);
        l := l + 1;
      }
    }

    /** LIST and UIDL, for one message or all of them (lines 1079-1158). */
    method ListCmd(line: string, uidl: bool) returns (replies: seq<string>)
      requires Valid()
      ensures replies == ListReplies(line, uidl)
    {
      if ListsOne(line) {
        var n := Atoi(Arg(line, 4));
        if n < 1 || n > |mail| {
          return [NoSuchMsg];
        }
        if Deleted(base[n - 1]) {
          return [MsgDeletedRsp];
        }
        return ["+OK " + Dec(n) + " " + Dec(ListValue(mail[n - 1], uidl))];
      }
      replies := [CountReply(|mail|, bytes)];
      var l := 0;
      while l < |mail|
        invariant l <= |mail| && replies == [CountReply(|mail|, bytes)] + Listing(mail, base[..], uidl, l)
      {
        if !Deleted(base[l]) {
          replies := replies + [Entry(l, ListValue(mail[l], uidl))];
        }
        l := l + 1;
      }
      replies := replies + ["."];
    }

    /** RETR n and TOP n k (lines 1160-1270). */
    method Retrieve(line: string, top: bool, sent: nat) returns (reply: string, transfer: Option<Retrieval>)
      requires Valid()
      modifies base
      ensures Retrieved(line, top, sent, old(base[..]), [reply], transfer)
    {
      var plan := RetrPlan(mail, base[..], line, top);
      reply := PlanReply(plan);
      transfer := None;
      if plan.Send? {
        transfer := Some(plan);
        if Marks(plan.maxLines, sent) {
          MarkOne(plan.index);
        }
      }
    }

    /** The attribute update after a completed transfer (lines 1236-1262). */
    method MarkOne(i: nat)
      requires Valid() && i < base.Length
      modifies base
      ensures base[..] == MarkRead(old(base[..]), i)
    {
      base[i] := Stored(base[i].attr | MSG_READ, base[i].netattr | MSG_SENT);
    }

    /** DELE n (lines 1271-1323): a message already marked is marked again. */
    method Delete(n: int) returns (reply: string)
      requires Valid()
      modifies base
      ensures Removed(n, old(base[..]), [reply])
    {
      if n < 1 || n > |mail| {
        return NoSuchMsg;
      }
      base[n - 1] := base[n - 1].(attr := base[n - 1].attr | MSG_DELETE);
      reply := PopOk;
    }
  }
}

/** External mail processors of the SMTP server: the "%"-template expansion of
    their command lines (mailcmdstr), the choice of the processors a message
    goes through, and the SMTP replies made from a processor's error file. */
module MailProc {
  import opened Text
  import opened Replies

  /** An unsigned 32-bit user number. */
  type uint32 = x: nat | x < 0x1_0000_0000

  // ---------------------------------------------------------------- mailcmdstr

  /** What the specifiers of a command line stand for: the paths of the
      message, new-message, log, recipient-list and error files, the client,
      the configured directories and system names, the message's addresses,
      the version string and the relaying user's number. */
  datatype CmdVars = CmdVars(
    msgPath: string, newPath: string, logPath: string, lstPath: string, errPath: string,
    host: string, ip: string, usernum: uint32,
    rcptAddr: string, sender: string, senderAddr: string, reversePath: string,
    tempDir: string, dataDir: string, ctrlDir: string, textDir: string, execDir: string,
    sysOp: string, sysId: string, version: string, revision: char, platform: string,
    unix: bool)

  /** The text "%c" expands to; the letter is read ignoring case, and an
      unknown specifier (NUL, for a '%' ending the template) gives nothing.
      The version and the platform go through a 1024-byte buffer; the
      platform is lower-cased; "%@" is the exec directory except on Unix. */
  function Specifier(c: char, v: CmdVars): string {
    match ToUpper(c)
    case 'D' => v.logPath
    case 'E' => v.errPath
    case 'H' => v.host
    case 'I' => v.ip
    case 'G' => v.tempDir
    case 'J' => v.dataDir
    case 'K' => v.ctrlDir
    case 'L' => v.lstPath
    case 'F' => v.msgPath
    case 'M' => v.msgPath
    case 'N' => v.newPath
    case 'O' => v.sysOp
    case 'Q' => v.sysId
    case 'R' => v.reversePath
    case 'S' => v.sender
    case 'T' => v.rcptAddr
    case 'A' => v.senderAddr
    case 'V' => Take(v.version + [v.revision], 1023)
    case 'Z' => v.textDir
    case '!' => v.execDir
    case '@' => if v.unix then [] else v.execDir
    case '%' => "%"
    case '?' => Lower(Take(v.platform, 1023))
    case 'U' => Dec(v.usernum)
    case _ => []
  }

  /** The expanded command line: every byte other than '%' is copied, and
      '%' with the byte after it is replaced by what that specifier stands
      for. */
  function Expand(s: string, v: CmdVars): string
    decreases |s|
  {
    if s == [] then []
    else if s[0] != '%' then [s[0]] + Expand(s[1..], v)
    else if |s| == 1 then Specifier(NUL, v)
    else Specifier(s[1], v) + Expand(s[2..], v)
  }

  /** The template from index `i` on; the cursor passes the end by one after
      a '%' that ends the template. */
  function From(s: string, i: nat): string {
    if i <= |s| then s[i..] else []
  }

  /** mailcmdstr: builds the command line by walking the template with one
      cursor, appending as it goes. */
  method MailCmdStr(instr: string, v: CmdVars) returns (cmd: string)
    ensures cmd == Expand(instr, v)
  {
    cmd := [];
    var i := 0;
    while i < |instr|
      invariant i <= |instr| + 1
      invariant cmd + Expand(From(instr, i), v) == Expand(instr, v)
      decreases |instr| + 1 - i
    {
      ghost var tail := instr[i..];
      if instr[i] == '%' {
        i := i + 1;
        var c := if i < |instr| then instr[i] else NUL;
        assert Expand(tail, v) == Specifier(c, v) + Expand(From(instr, i + 1), v) by {
          ExpandPercent(instr, i - 1, v);
        }
        cmd := cmd + Specifier(c, v);
      } else {
        assert Expand(tail, v) == [instr[i]] + Expand(instr[i + 1..], v);
        cmd := cmd + [instr[i]];
      }
      i := i + 1;
    }
    assert From(instr, i) == [];
  }

  lemma ExpandPercent(s: string, i: nat, v: CmdVars)
    requires i < |s| && s[i] == '%'
    ensures Expand(s[i..], v) == Specifier(if i + 1 < |s| then s[i + 1] else NUL, v) + Expand(From(s, i + 2), v)
  {
    var t := s[i..];
    assert t[0] == '%';
    if i + 1 < |s| {
      assert t[1] == s[i + 1] && t[2..] == s[i + 2..];
    } else {
      assert |t| == 1;
      assert From(s, i + 2) == [];
    }
  }

  /** A template without '%' is copied as it is. */
  lemma {:induction false} ExpandPlain(s: string, v: CmdVars)
    requires '%' !in s
    ensures Expand(s, v) == s
    decreases |s|
  {
    if s != [] {
      assert '%' !in s[1..];
      ExpandPlain(s[1..], v);
    }
  }

  /** Literal text in front of a template is copied in front of its expansion. */
  lemma {:induction false} ExpandLiteral(a: string, b: string, v: CmdVars)
    requires '%' !in a
    ensures Expand(a + b, v) == a + Expand(b, v)
    decreases |a|
  {
    if a != [] {
      assert (a + b)[0] == a[0] && (a + b)[1..] == a[1..] + b;
      assert Expand(a + b, v) == [a[0]] + Expand(a[1..] + b, v);
      assert '%' !in a[1..];
      ExpandLiteral(a[1..], b, v);
      Assoc([a[0]], a[1..], Expand(b, v));
      assert [a[0]] + a[1..] == a;
    } else {
      assert a + b == b;
      Unit(Expand(b, v));
    }
  }

  /** A specifier in front of a template is replaced in front of its expansion. */
  lemma ExpandSpecifier(c: char, b: string, v: CmdVars)
    ensures Expand(['%', c] + b, v) == Specifier(c, v) + Expand(b, v)
  {
    assert (['%', c] + b)[2..] == b;
  }

  /** Specifiers ignore case. */
  lemma SpecifierIgnoresCase(c: char, v: CmdVars)
    ensures Specifier(ToLower(c), v) == Specifier(ToUpper(c), v) == Specifier(c, v)
  {
  }

  /** "%%" is one percent sign. */
  lemma PercentPercent(v: CmdVars)
    ensures Expand("%%", v) == "%"
  {
    ExpandSpecifier('%', [], v);
    assert "%%" == ['%', '%'] + [];
  }

  /** "%u" reads back as the user number. */
  lemma UserNumber(v: CmdVars)
    ensures Atoi(Expand("%u", v)) == v.usernum
  {
    var d := Dec(v.usernum);
    assert Expand("%u", v) == d by {
      ExpandSpecifier('u', [], v);
      assert "%u" == ['%', 'u'] + [];
      assert Specifier('u', v) + [] == d;
    }
    AtoiDec(v.usernum, []);
    assert d + [] == d;
  }

  /** The specifier letters mailcmdstr knows. */
  const Known: set<char> := {'D', 'E', 'H', 'I', 'G', 'J', 'K', 'L', 'F', 'M', 'N', 'O', 'Q',
                             'R', 'S', 'T', 'A', 'V', 'Z', '!', '@', '%', '?', 'U'}

  /** A specifier outside the table expands to nothing. */
  lemma UnknownSpecifier(a: string, c: char, b: string, v: CmdVars)
    requires '%' !in a && ToUpper(c) !in Known
    ensures Expand(a + ['%', c] + b, v) == a + Expand(b, v)
  {
    assert a + ['%', c] + b == a + (['%', c] + b);
    ExpandLiteral(a, ['%', c] + b, v);
    ExpandSpecifier(c, b, v);
    UnknownIsEmpty(c, v);
  }

  lemma UnknownIsEmpty(c: char, v: CmdVars)
    requires ToUpper(c) !in Known
    ensures Specifier(c, v) == []
  {
  }

  /** A '%' that ends the template expands to nothing. */
  lemma TrailingPercent(a: string, v: CmdVars)
    requires '%' !in a
    ensures Expand(a + "%", v) == a
  {
    ExpandLiteral(a, "%", v);
    assert ToUpper(NUL) == NUL;
    UnknownIsEmpty(NUL, v);
  }

  // ---------------------------------------------------------------- choosing processors

  /** A configured external mail processor: its command line, the recipient
      and sender lists it is limited to (when present) and its options. */
  datatype Processor = Processor(
    name: string, cmdline: string, to: Option<seq<string>>, from: Option<seq<string>>,
    passthru: bool, native: bool, ignoreOnError: bool, disabled: bool,
    processSpam: bool, processDnsbl: bool)

  /** What the session knows about the message: whether the client is on a
      DNS blacklist, whether a recipient was a spam-bait address, and the
      sender's address. */
  datatype Screen = Screen(dnsblListed: bool, spamBait: bool, senderAddr: string)

  /** A processor may see the message: the blacklist, spam-bait and access
      requirement (chk_ar, given as `arOk`) checks. */
  predicate Screened(p: Processor, s: Screen, arOk: bool) {
    (p.processDnsbl || !s.dnsblListed) && (p.processSpam || !s.spamBait) && arOk
  }

  /** A processor runs for the message: it is enabled, screened, was matched
      by a recipient when it has a recipient list, and lists the sender when
      it has a sender list (findstr_in_list, given as `inList`). */
  predicate Applies(p: Processor, s: Screen, arOk: bool, toMatch: bool,
                    inList: (string, seq<string>) -> bool) {
    !p.disabled && Screened(p, s, arOk) && (p.to.None? || toMatch)
    && (p.from.None? || inList(s.senderAddr, p.from.value))
  }

  /** A processor's recipient list names the address (a missing list names
      nothing). */
  predicate ListsRecipient(p: Processor, addr: string, inList: (string, seq<string>) -> bool) {
    p.to.Some? && inList(addr, p.to.value)
  }

  /** RCPT TO: the first screened processor whose recipient list names the
      recipient; |procs| when there is none. The enabled flag is not looked
      at here. */
  method MatchRecipient(procs: seq<Processor>, s: Screen, arOk: nat -> bool, addr: string,
                        inList: (string, seq<string>) -> bool) returns (i: nat)
    ensures i <= |procs|
    ensures i < |procs| ==> Screened(procs[i], s, arOk(i)) && ListsRecipient(procs[i], addr, inList)
    ensures forall k :: 0 <= k < i ==> !(Screened(procs[k], s, arOk(k)) && ListsRecipient(procs[k], addr, inList))
  {
    i := 0;
    while i < |procs|
      invariant i <= |procs|
      invariant forall k :: 0 <= k < i ==> !(Screened(procs[k], s, arOk(k)) && ListsRecipient(procs[k], addr, inList))
    {
      if Screened(procs[i], s, arOk(i)) && ListsRecipient(procs[i], addr, inList) {
        return;
      }
      i := i + 1;
    }
  }

  /** What running a processor's command line leaves behind: its exit code,
      whether it wrote to the error file, and whether the message text and
      recipient list files are still there. */
  datatype Outcome = Outcome(exitCode: int, errWritten: bool, filesKept: bool)

  /** The processor takes the message off the normal delivery path: it is
      not a pass-through one, or it is a native one that failed and is set
      to ignore the message on error. */
  predicate Handles(p: Processor, o: Outcome) {
    !p.passthru || (p.native && o.exitCode != 0 && p.ignoreOnError)
  }

  /** The inputs of the processor chain: the processors, what is known of
      the message, the access check per processor, which processors a
      recipient matched, the list matcher, the template values and `run`,
      which stands for executing a command line. */
  datatype Chain = Chain(procs: seq<Processor>, screen: Screen, arOk: nat -> bool, toMatch: seq<bool>,
                         inList: (string, seq<string>) -> bool, vars: CmdVars,
                         run: (nat, string) -> Outcome)

  /** Processor `k` runs for the message. */
  predicate AppliesAt(c: Chain, k: nat) {
    k < |c.procs| && k < |c.toMatch| && Applies(c.procs[k], c.screen, c.arOk(k), c.toMatch[k], c.inList)
  }

  /** What running processor `k`'s expanded command line leaves behind. */
  function OutcomeAt(c: Chain, k: nat): Outcome {
    if k < |c.procs| then c.run(k, Expand(c.procs[k].cmdline, c.vars)) else Outcome(0, false, true)
  }

  /** Processor `k` ran and handled the message. */
  predicate HandledAt(c: Chain, k: nat) {
    k < |c.procs| && Handles(c.procs[k], OutcomeAt(c, k))
  }

  /** The chain stops after a processor that wrote an error or removed one
      of the files. */
  predicate Stops(o: Outcome) {
    o.errWritten || !o.filesKept
  }

  /** The processors that run, from processor `i` on: each applicable one,
      in order, up to and including the first whose outcome stops the
      chain. */
  function ChainFrom(c: Chain, i: nat): seq<nat>
    decreases |c.procs| - i
  {
    if i >= |c.procs| then []
    else if !AppliesAt(c, i) then ChainFrom(c, i + 1)
    else if Stops(OutcomeAt(c, i)) then [i]
    else [i] + ChainFrom(c, i + 1)
  }

  /** Some processor that ran handled the message. */
  predicate AnyHandled(c: Chain, ran: seq<nat>) {
    exists j :: 0 <= j < |ran| && HandledAt(c, ran[j])
  }

  /** The processor chain at the end of DATA: every applicable processor, in
      order, runs its expanded command line until one stops the chain.
      Returns the processors that ran and whether the message was handled. */
  method RunProcessors(c: Chain) returns (ran: seq<nat>, handled: bool)
    ensures ran == ChainFrom(c, 0)
    ensures handled == AnyHandled(c, ran)
  {
    ran := [];
    handled := false;
    var i := 0;
    while i < |c.procs|
      invariant i <= |c.procs|
      invariant ran + ChainFrom(c, i) == ChainFrom(c, 0)
      invariant handled == AnyHandled(c, ran)
    {
      ghost var before := ran;
      var stop;
      ran, handled, stop := Visit(c, i, ran, handled);
      if AppliesAt(c, i) {
        AnyHandledSnoc(c, before, i);
      }
      if stop {
        assert ChainFrom(c, i) == [i];
        return;
      }
      if AppliesAt(c, i) {
        Assoc(before, [i], ChainFrom(c, i + 1));
      }
      i := i + 1;
    }
    assert ChainFrom(c, i) == [];
  }

  lemma AnyHandledSnoc(c: Chain, ran: seq<nat>, i: nat)
    ensures AnyHandled(c, ran + [i]) == (AnyHandled(c, ran) || HandledAt(c, i))
  {
    var r := ran + [i];
    assert r[|ran|] == i;
    assert forall j :: 0 <= j < |ran| ==> r[j] == ran[j];
  }

  /** One processor of the chain: when it applies, its command line is
      expanded and run, and it is added to the processors that ran. */
  method Visit(c: Chain, i: nat, ran: seq<nat>, handled: bool) returns (ran': seq<nat>, handled': bool, stop: bool)
    requires i < |c.procs|
    ensures ran' == if AppliesAt(c, i) then ran + [i] else ran
    ensures handled' == (handled || (AppliesAt(c, i) && HandledAt(c, i)))
    ensures stop == (AppliesAt(c, i) && Stops(OutcomeAt(c, i)))
  {
    ran', handled', stop := ran, handled, false;
    if AppliesAt(c, i) {
      var cmd := MailCmdStr(c.procs[i].cmdline, c.vars);
      var o := c.run(i, cmd);
      assert o == OutcomeAt(c, i);
      ran' := ran + [i];
      if Handles(c.procs[i], o) {
        handled' := true;
      }
      stop := Stops(o);
    }
  }

  /** The processors that ran are applicable ones, in increasing order, from
      `i` on; none but the last stopped the chain. */
  lemma {:induction false} ChainOrdered(c: Chain, i: nat)
    ensures forall j :: 0 <= j < |ChainFrom(c, i)| ==> i <= ChainFrom(c, i)[j] && AppliesAt(c, ChainFrom(c, i)[j])
    ensures forall j, k :: 0 <= j < k < |ChainFrom(c, i)| ==> ChainFrom(c, i)[j] < ChainFrom(c, i)[k]
    ensures forall j :: 0 <= j < |ChainFrom(c, i)| - 1 ==> !Stops(OutcomeAt(c, ChainFrom(c, i)[j]))
    decreases |c.procs| - i
  {
    if i < |c.procs| {
      ChainOrdered(c, i + 1);
      var r := ChainFrom(c, i + 1);
      if AppliesAt(c, i) && !Stops(OutcomeAt(c, i)) {
        assert ChainFrom(c, i) == [i] + r;
        assert forall j :: 0 < j < |[i] + r| ==> ([i] + r)[j] == r[j - 1];
      }
    }
  }

  /** No applicable processor is passed over: one that did not run comes
      after the processor that stopped the chain. */
  lemma {:induction false} ChainComplete(c: Chain, i: nat, k: nat)
    requires i <= k && AppliesAt(c, k) && k !in ChainFrom(c, i)
    ensures var r := ChainFrom(c, i); |r| > 0 && r[|r| - 1] < k && Stops(OutcomeAt(c, r[|r| - 1]))
    decreases |c.procs| - i
  {
    if i < k {
      if !AppliesAt(c, i) {
        ChainComplete(c, i + 1, k);
      } else if !Stops(OutcomeAt(c, i)) {
        var r := ChainFrom(c, i + 1);
        assert ChainFrom(c, i) == [i] + r;
        assert k !in r;
        ChainComplete(c, i + 1, k);
        assert ([i] + r)[|[i] + r| - 1] == r[|r| - 1];
      }
    }
  }

  // ---------------------------------------------------------------- error file replies

  /** After the chain: replies from a non-empty error file, else "250 OK"
      when a processor removed the message text or recipient list or
      handled the message; returns the replies and whether the message is
      handled (kept off normal delivery). */
  function ChainReply(errLines: seq<string>, filesKept: bool, handled: bool): (r: (seq<string>, bool))
    ensures r.1 <==> errLines != [] || !filesKept || handled
    ensures r.1 ==> r.0 != [] && forall k :: 0 <= k < |r.0| ==> 100 <= Atoi(r.0[k]) < 1000
    ensures !r.1 ==> r.0 == []
  {
    if errLines != [] then
      ErrorRepliesCode(errLines);
      (ErrorReplies(errLines), true)
    else if !filesKept || handled then
      OkRspCode();
      ([OkRsp], true)
    else ([], false)
  }

  lemma OkRspCode()
    ensures Atoi(OkRsp) == 250
  {
    Dec250();
    AtoiDec(250, " OK");
    assert OkRsp == Dec(250) + " OK";
  }

  lemma Dec250()
    ensures Dec(250) == "250"
  {
    assert Dec(2) == "2";
    assert Dec(25) == Dec(2) + "5";
    assert Dec(250) == Dec(25) + "0";
  }

  /** One line of the error file as a reply: trailing white-space removed,
      sent as it is when it starts with a reply code 100..999, otherwise
      under code 554, as a continuation line unless it is the file's last. */
  function ErrorReply(line: string, more: bool): string {
    var str := TrimEnd(line);
    var n := Atoi(str);
    if 100 <= n < 1000 then str
    else (if more then "554-" else "554 ") + str
  }

  /** The replies made from the error file, read line by line. */
  function ErrorReplies(lines: seq<string>): (r: seq<string>)
    ensures |r| == |lines|
    ensures forall k :: 0 <= k < |lines| ==> r[k] == ErrorReply(lines[k], k < |lines| - 1)
  {
    if lines == [] then []
    else [ErrorReply(lines[0], |lines| > 1)] + ErrorReplies(lines[1..])
  }

  /** Every reply made from the error file carries a reply code 100..999. */
  lemma ReplyCode(line: string, more: bool)
    ensures 100 <= Atoi(ErrorReply(line, more)) < 1000
  {
    var str := TrimEnd(line);
    if !(100 <= Atoi(str) < 1000) {
      Code554(more, str);
    }
  }

  lemma Code554(more: bool, str: string)
    ensures Atoi((if more then "554-" else "554 ") + str) == 554
  {
    var sep := if more then '-' else ' ';
    assert (if more then "554-" else "554 ") + str == Dec(554) + ([sep] + str) by {
      Dec554();
    }
    AtoiDec(554, [sep] + str);
  }

  lemma Dec554()
    ensures Dec(554) == "554"
  {
    assert Dec(5) == "5";
    assert Dec(55) == Dec(5) + "5";
    assert Dec(554) == Dec(55) + "4";
  }

  /** Every reply made from the error file carries a reply code. */
  lemma ErrorRepliesCode(lines: seq<string>)
    ensures forall k :: 0 <= k < |lines| ==> 100 <= Atoi(ErrorReplies(lines)[k]) < 1000
  {
    forall k | 0 <= k < |lines|
      ensures 100 <= Atoi(ErrorReplies(lines)[k]) < 1000
    {
      ReplyCode(lines[k], k < |lines| - 1);
    }
  }

  /** Lines without a code become one multi-line 554 reply: all but the
      file's last line are continuation lines. */
  lemma ErrorRepliesContinue(lines: seq<string>)
    ensures forall k :: 0 <= k < |lines| - 1 && !(100 <= Atoi(TrimEnd(lines[k])) < 1000) ==>
      ErrorReplies(lines)[k] == "554-" + TrimEnd(lines[k])
    ensures |lines| > 0 && !(100 <= Atoi(TrimEnd(lines[|lines| - 1])) < 1000) ==>
      ErrorReplies(lines)[|lines| - 1] == "554 " + TrimEnd(lines[|lines| - 1])
  {
  }

  lemma CodedLineKept(code: nat, text: string)
    requires text == [] || !IsSpace(text[|text| - 1])
    ensures TrimEnd(Dec(code) + text) == Dec(code) + text
  {
    var line := Dec(code) + text;
    assert !IsSpace(line[|line| - 1]) by {
      if text == [] {
        assert line[|line| - 1] == Dec(code)[|Dec(code)| - 1];
      } else {
        assert line[|line| - 1] == text[|text| - 1];
      }
    }
    TrimEndKeeps(line);
  }

  /** A line that starts with a reply code is passed on as the reply. */
  lemma CodedLinePassed(code: nat, text: string, more: bool)
    requires 100 <= code < 1000
    requires text == [] || (!IsDigit(text[0]) && !IsSpace(text[|text| - 1]))
    ensures ErrorReply(Dec(code) + text, more) == Dec(code) + text
  {
    CodedLineKept(code, text);
    AtoiDec(code, text);
  }
}

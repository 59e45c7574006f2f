/** Header, address and argument parsing of the mail server: header lines
    (get_header_field, parse_header_field), mail addresses
    (parse_mail_address), Received: lines, "#tag" user names, RCPT and MAIL
    arguments, address literals, the ":port" of an envelope address and the
    DNS blacklist query name. */
module Headers {
  import opened Text

  // ---------------------------------------------------------------- header lines

  /** get_header_field: a header line's name, cut to `maxlen` - 1 bytes and
      trimmed, and its value with leading white-space skipped. A folded line
      (first byte at most ' ') or a line without ':' has no field. */
  function GetHeaderField(line: string, maxlen: nat, signedChar: bool): (r: Option<(string, string)>)
    requires maxlen > 0
    ensures r.Some? <==> line != [] && !LeSpace(line[0], signedChar) && ':' in line
    ensures r.Some? ==> |r.value.0| < maxlen && (r.value.1 == [] || !IsSpace(r.value.1[0]))
  {
    if line == [] || LeSpace(line[0], signedChar) then None
    else match IndexOf(line, ':')
      case None => None
      case Some(i) => Some((TrimEnd(Take(line[..i], maxlen - 1)), SkipSpace(line[i + 1..])))
  }

  /** Reading back a header line "name: value" gives the name and the value. */
  lemma GetHeaderFieldRoundTrip(name: string, value: string, maxlen: nat, signedChar: bool)
    requires maxlen > 0 && 0 < |name| < maxlen && ':' !in name
    requires !LeSpace(name[0], signedChar) && !IsSpace(name[|name| - 1])
    requires value == [] || !IsSpace(value[0])
    ensures GetHeaderField(name + ": " + value, maxlen, signedChar) == Some((name, value))
  {
    SplitLine(name, value);
    assert (name + ": " + value)[0] == name[0];
    TakeAll(name, maxlen - 1);
    TrimEndKeeps(name);
    SkipOneSpace(value);
  }

  /** The header field types the parser records (SMB header field kinds). */
  datatype HfieldType =
    | Unknown | Rfc822Header | SmtpReceived | Rfc822To | Rfc822ReplyTo | ReplyToNetType
    | ReplyToNetAddr | Rfc822From | SenderOrg | Rfc822MsgId | Rfc822ReplyId | CarbonCopy

  datatype Hfield = Hfield(kind: HfieldType, value: string)

  /** What one header line does to the message header under construction. */
  datatype HeaderEffect =
    | Add(fields: seq<Hfield>)        // new fields, in order
    | Append(kind: HfieldType, text: string) // text added to the last field of that kind
    | SetDate(text: string)           // the Date: value, for the written-time stamp
    | Skip                            // ignored (Return-Path:)

  /** Header names the parser knows, compared ignoring case. */
  datatype FieldName = ToName | ReplyToName | FromName | OrgName | DateName | MsgIdName
    | InReplyToName | CcName | ReceivedName | ReturnPathName | OtherName

  /** The name a header field is recognised as; stricmp compares ignoring case. */
  function Classify(field: string): FieldName {
    ClassifyUpper(Upper(field))
  }

  function ClassifyUpper(u: string): FieldName {
    if u == "TO" then ToName
    else if u == "REPLY-TO" then ReplyToName
    else if u == "FROM" then FromName
    else if u == "ORGANIZATION" then OrgName
    else if u == "DATE" then DateName
    else if u == "MESSAGE-ID" then MsgIdName
    else if u == "IN-REPLY-TO" then InReplyToName
    else if u == "CC" then CcName
    else if u == "RECEIVED" then ReceivedName
    else if u == "RETURN-PATH" then ReturnPathName
    else OtherName
  }

  /** Header names are recognised whatever their case. */
  lemma ClassifyIgnoresCase(field: string)
    ensures Classify(Lower(field)) == Classify(field)
  {
    UpperLower(field);
  }

  /** The names stored as one field holding the value. */
  predicate Simple(n: FieldName) {
    n !in {ReplyToName, DateName, ReturnPathName, OtherName}
  }

  /** The field type a simple name's value is stored under. */
  function KindOf(n: FieldName): HfieldType {
    match n
    case ToName => Rfc822To
    case FromName => Rfc822From
    case OrgName => SenderOrg
    case MsgIdName => Rfc822MsgId
    case InReplyToName => Rfc822ReplyId
    case CcName => CarbonCopy
    case ReceivedName => SmtpReceived
    case _ => Unknown
  }

  /** The text after the last '<', cut at its first '>' (or all of `s`). */
  function Bracketed(s: string): (r: string)
    ensures '>' !in r
  {
    match LastIndexOf(s, '<')
    case None => TruncAt(s, {'>'})
    case Some(i) => TruncAt(s[i + 1..], {'>'})
  }

  /** The name of a header line whose first ':' is at `i`: cut to 127 bytes
      (the size of the name buffer less one) and trimmed. */
  function NameAt(line: string, i: nat): string
    requires i <= |line|
  {
    TrimEnd(Take(line[..i], 127))
  }

  /** The value after the ':' at `i`, with the white-space around it removed. */
  function ValueAt(line: string, i: nat): string
    requires i < |line|
  {
    TrimEnd(SkipSpace(line[i + 1..]))
  }

  /** The line as trimming its value in place leaves it: the value starts
      with a byte that is not white-space, so trimming it trims the line; a
      value that is all white-space is skipped over entirely and nothing is
      trimmed. */
  function TrimmedLine(line: string, i: nat): string
    requires i < |line|
  {
    if SkipSpace(line[i + 1..]) == [] then line else TrimEnd(line)
  }

  /** parse_header_field: the effect of one header line, given the type of the
      field the previous line recorded; returns the effect and the new type.
      A folded line continues the previous field (with CRLF kept for
      RFC822HEADER and Received, otherwise unfolded with one space); a line
      without ':' is kept whole; recognised names store their value; any
      other line is kept whole. */
  function ParseHeaderField(line: string, prev: HfieldType, signedChar: bool): (HeaderEffect, HfieldType) {
    if (line == [] || LeSpace(line[0], signedChar)) && prev != Unknown then
      var p := TrimEnd(line);
      if prev == Rfc822Header || prev == SmtpReceived then (Append(prev, CRLF + p), prev)
      else (Append(prev, " " + SkipSpace(p)), prev)
    else match IndexOf(line, ':')
      case None => (Add([Hfield(Rfc822Header, line)]), Rfc822Header)
      case Some(i) => FieldEffect(line, i, Classify(NameAt(line, i)))
  }

  /** The effect of a line whose first ':' is at `i` and whose name is
      recognised as `n`. */
  function FieldEffect(line: string, i: nat, n: FieldName): (HeaderEffect, HfieldType)
    requires i < |line|
  {
    match n
    case ReplyToName =>
      var value := ValueAt(line, i);
      var addr := if '<' in value then Bracketed(value) else value;
      (Add([Hfield(Rfc822ReplyTo, value), Hfield(ReplyToNetType, []), Hfield(ReplyToNetAddr, addr)]),
       ReplyToNetAddr)
    case DateName => (SetDate(ValueAt(line, i)), Unknown)
    case ReturnPathName => (Skip, Unknown)
    case OtherName => (Add([Hfield(Rfc822Header, TrimmedLine(line, i))]), Rfc822Header)
    case _ => (Add([Hfield(KindOf(n), ValueAt(line, i))]), KindOf(n))
  }

  /** A line "name: value" splits into the name and the value. */
  lemma FieldPartsOf(name: string, value: string)
    requires |name| <= 127 && ':' !in name && (name == [] || !IsSpace(name[|name| - 1]))
    requires value == [] || (!IsSpace(value[0]) && !IsSpace(value[|value| - 1]))
    ensures IndexOf(name + ": " + value, ':') == Some(|name|)
    ensures NameAt(name + ": " + value, |name|) == name
    ensures ValueAt(name + ": " + value, |name|) == value
  {
    NameAtOf(name, value);
    SkipOneSpace(value);
    TrimEndKeeps(value);
  }

  lemma NameAtOf(name: string, value: string)
    requires |name| <= 127 && ':' !in name && (name == [] || !IsSpace(name[|name| - 1]))
    ensures IndexOf(name + ": " + value, ':') == Some(|name|)
    ensures NameAt(name + ": " + value, |name|) == name
    ensures (name + ": " + value)[|name| + 1..] == " " + value
  {
    SplitLine(name, value);
    TakeAll(name, 127);
    TrimEndKeeps(name);
  }

  /** A line that starts a field has the effect its name selects. */
  lemma ParseFieldLine(name: string, value: string, prev: HfieldType, signedChar: bool)
    requires FieldStart(name, signedChar)
    ensures ParseHeaderField(name + ": " + value, prev, signedChar)
      == FieldEffect(name + ": " + value, |name|, Classify(name))
  {
    NameAtOf(name, value);
    assert (name + ": " + value)[0] == name[0];
  }

  lemma SkipOneSpace(s: string)
    requires s == [] || !IsSpace(s[0])
    ensures SkipSpace(" " + s) == s
  {
    assert (" " + s)[1..] == s;
  }

  /** Splitting "name: value" at its first ':'. */
  lemma SplitLine(name: string, value: string)
    requires ':' !in name
    ensures IndexOf(name + ": " + value, ':') == Some(|name|)
    ensures (name + ": " + value)[..|name|] == name
    ensures (name + ": " + value)[|name| + 1..] == " " + value
  {
    var line := name + ": " + value;
    var w := [':'] + (" " + value);
    assert line == name + w by {
      RegroupColon(name, value);
    }
    assert line[..|name|] == name && line[|name|..] == w by {
      SplitAt(name, w);
    }
    assert line[|name| + 1..] == " " + value by {
      assert line[|name| + 1..] == w[1..];
    }
    assert forall k :: 0 <= k < |name| ==> line[k] != ':' by {
      assert forall k :: 0 <= k < |name| ==> line[k] == name[k];
    }
    IndexOfFirst(line, ':', |name|);
  }

  lemma RegroupColon(name: string, value: string)
    ensures name + ": " + value == name + ([':'] + (" " + value))
  {
  }

  /** A folded line continues the field before it, whose type is kept; after
      Date: and Return-Path: there is no field to continue. */
  lemma FoldedLineContinues(line: string, prev: HfieldType, signedChar: bool)
    requires (line == [] || LeSpace(line[0], signedChar)) && prev != Unknown
    ensures ParseHeaderField(line, prev, signedChar).1 == prev
    ensures ParseHeaderField(line, prev, signedChar).0.Append?
    ensures ParseHeaderField(line, prev, signedChar).0.kind == prev
  {
  }

  /** A line that starts a field: not folded, with a name free of ':'
      and without trailing white-space. */
  predicate FieldStart(name: string, signedChar: bool) {
    0 < |name| <= 127 && ':' !in name && !LeSpace(name[0], signedChar) && !IsSpace(name[|name| - 1])
  }

  /** A header line "Name: value" with a recognised simple name records the
      value, with the white-space around it removed, under that name's kind. */
  lemma KnownFieldStored(name: string, value: string, prev: HfieldType, signedChar: bool)
    requires FieldStart(name, signedChar) && Simple(Classify(name))
    requires value == [] || (!IsSpace(value[0]) && !IsSpace(value[|value| - 1]))
    ensures ParseHeaderField(name + ": " + value, prev, signedChar)
      == (Add([Hfield(KindOf(Classify(name)), value)]), KindOf(Classify(name)))
  {
    var line := name + ": " + value;
    ParseFieldLine(name, value, prev, signedChar);
    FieldPartsOf(name, value);
    SimpleEffect(line, |name|, Classify(name));
  }

  lemma SimpleEffect(line: string, i: nat, n: FieldName)
    requires i < |line| && Simple(n)
    ensures FieldEffect(line, i, n) == (Add([Hfield(KindOf(n), ValueAt(line, i))]), KindOf(n))
  {
  }

  /** Reply-To: records the whole value, the Internet net type and the address
      between its last '<' and the following '>'. */
  lemma ReplyToStoresAddress(name: string, addr: string, prev: HfieldType, signedChar: bool)
    requires FieldStart(name, signedChar) && Classify(name) == ReplyToName
    requires '<' !in addr && '>' !in addr
    ensures ParseHeaderField(name + ": " + ("<" + addr + ">"), prev, signedChar)
      == (Add([Hfield(Rfc822ReplyTo, "<" + addr + ">"), Hfield(ReplyToNetType, []), Hfield(ReplyToNetAddr, addr)]),
          ReplyToNetAddr)
  {
    var value := "<" + addr + ">";
    var line := name + ": " + value;
    ParseFieldLine(name, value, prev, signedChar);
    assert value[0] == '<' && value[|value| - 1] == '>';
    FieldPartsOf(name, value);
    BracketedOf(addr);
    ReplyToEffect(line, |name|, value, addr);
  }

  lemma ReplyToEffect(line: string, i: nat, value: string, addr: string)
    requires i < |line| && ValueAt(line, i) == value && '<' in value && Bracketed(value) == addr
    ensures FieldEffect(line, i, ReplyToName)
      == (Add([Hfield(Rfc822ReplyTo, value), Hfield(ReplyToNetType, []), Hfield(ReplyToNetAddr, addr)]), ReplyToNetAddr)
  {
  }

  /** The address inside "<addr>". */
  lemma BracketedOf(addr: string)
    requires '<' !in addr && '>' !in addr
    ensures '<' in "<" + addr + ">" && Bracketed("<" + addr + ">") == addr
  {
    var value := "<" + addr + ">";
    assert value[0] == '<';
    assert forall k :: 1 <= k < |value| ==> value[k] != '<';
    assert LastIndexOf(value, '<') == Some(0);
    assert value[1..] == addr + ">";
    NoStopTruncAt(addr, ">");
  }

  /** Date: sets the written time and leaves no field for a folded line to
      continue. */
  lemma DateSetsWritten(name: string, value: string, prev: HfieldType, signedChar: bool)
    requires FieldStart(name, signedChar) && Classify(name) == DateName
    requires value == [] || (!IsSpace(value[0]) && !IsSpace(value[|value| - 1]))
    ensures ParseHeaderField(name + ": " + value, prev, signedChar) == (SetDate(value), Unknown)
  {
    ParseFieldLine(name, value, prev, signedChar);
    FieldPartsOf(name, value);
  }

  /** An existing Return-Path: is ignored and leaves no field for a folded
      line to continue. */
  lemma ReturnPathIgnored(name: string, value: string, prev: HfieldType, signedChar: bool)
    requires FieldStart(name, signedChar) && Classify(name) == ReturnPathName
    ensures ParseHeaderField(name + ": " + value, prev, signedChar) == (Skip, Unknown)
  {
    ParseFieldLine(name, value, prev, signedChar);
  }

  lemma NoStopTruncAt(s: string, t: string)
    requires '>' !in s && t != [] && t[0] == '>'
    ensures TruncAt(s + t, {'>'}) == s
  {
    if s != [] {
      assert (s + t)[1..] == s[1..] + t;
      NoStopTruncAt(s[1..], t);
    }
  }

  /** A field with any other name is stored as the whole header line, as the
      in-place trim of its value leaves it. */
  lemma OtherFieldKept(name: string, value: string, prev: HfieldType, signedChar: bool)
    requires FieldStart(name, signedChar) && Classify(name) == OtherName
    requires value == [] || (!IsSpace(value[0]) && !IsSpace(value[|value| - 1]))
    ensures ParseHeaderField(name + ": " + value, prev, signedChar)
      == (Add([Hfield(Rfc822Header, name + ": " + value)]), Rfc822Header)
  {
    var line := name + ": " + value;
    assert ParseHeaderField(line, prev, signedChar) == FieldEffect(line, |name|, OtherName) by {
      ParseFieldLine(name, value, prev, signedChar);
    }
    assert TrimmedLine(line, |name|) == line by {
      TrimmedLineKeeps(name, value);
    }
    OtherEffect(line, |name|);
  }

  lemma OtherEffect(line: string, i: nat)
    requires i < |line|
    ensures FieldEffect(line, i, OtherName) == (Add([Hfield(Rfc822Header, TrimmedLine(line, i))]), Rfc822Header)
  {
  }

  lemma TrimmedLineKeeps(name: string, value: string)
    requires |name| <= 127 && ':' !in name && (name == [] || !IsSpace(name[|name| - 1]))
    requires value == [] || (!IsSpace(value[0]) && !IsSpace(value[|value| - 1]))
    ensures TrimmedLine(name + ": " + value, |name|) == name + ": " + value
  {
    var line := name + ": " + value;
    NameAtOf(name, value);
    if value != [] {
      SkipOneSpace(value);
      assert line[|line| - 1] == value[|value| - 1];
      TrimEndKeeps(line);
    } else {
      assert SkipSpace(" ") == [];
    }
  }

  /** A line without ':' that starts a field is stored whole. */
  lemma LineWithoutColonKept(line: string, prev: HfieldType, signedChar: bool)
    requires line != [] && !LeSpace(line[0], signedChar) && ':' !in line
    ensures ParseHeaderField(line, prev, signedChar) == (Add([Hfield(Rfc822Header, line)]), Rfc822Header)
  {
  }

  // ---------------------------------------------------------------- mail addresses

  /** parse_mail_address, the address: the text after the last '<' (all of
      it when there is none), without leading white-space, cut to `addrLen`
      bytes and at the first '>', '(' or space. */
  function MailAddress(p: string, addrLen: nat): (r: string)
    ensures |r| <= addrLen
    ensures '>' !in r && '(' !in r && ' ' !in r
  {
    TruncAt(Take(SkipSpace(AfterLast(SkipSpace(p), '<')), addrLen), {'>', '(', ' '})
  }

  /** parse_mail_address, the name, taken from a 127-byte copy of the input:
      the text `NameSource` picks, cut to `nameLen` bytes and with trailing
      white-space trimmed. */
  function MailName(p: string, nameLen: nat): (r: string)
    ensures |r| <= nameLen && (r == [] || !IsSpace(r[|r| - 1]))
  {
    NameOf(Take(SkipSpace(p), 127), nameLen)
  }

  /** The name in text the parser has already cut down. */
  function NameOf(t: string, nameLen: nat): (r: string)
    ensures |r| <= nameLen && (r == [] || !IsSpace(r[|r| - 1]))
  {
    TrimEnd(Take(NameSource(t), nameLen))
  }

  /** Where the name is: inside the first "(...)", else inside the first
      "\"...\"", else inside "<...>" when the text starts with '<', else before
      '<'; a missing closing character leaves the rest of the text. */
  function NameSource(t: string): string {
    match IndexOf(t, '(')
    case Some(i) => TruncAt(t[i + 1..], {')'})
    case None =>
      match IndexOf(t, '"')
      case Some(i) => TruncAt(t[i + 1..], {'"'})
      case None => if t != [] && t[0] == '<' then TruncAt(t[1..], {'>'}) else TruncAt(t, {'<'})
  }

  /** parse_mail_address: the display name and the address. */
  function ParseMailAddress(p: string, nameLen: nat, addrLen: nat): (r: (string, string))
    ensures |r.0| <= nameLen && (r.0 == [] || !IsSpace(r.0[|r.0| - 1]))
    ensures |r.1| <= addrLen && '>' !in r.1 && '(' !in r.1 && ' ' !in r.1
  {
    (MailName(p, nameLen), MailAddress(p, addrLen))
  }

  /** An address: no white-space and none of the characters the parser
      splits on. */
  predicate AddrText(a: string) {
    a != [] && forall k :: 0 <= k < |a| ==> !IsSpace(a[k]) && a[k] !in {'<', '>', '(', ')', '"'}
  }

  /** A display name: no splitting characters, no white-space at either end. */
  predicate NameText(n: string) {
    n != [] && !IsSpace(n[0]) && !IsSpace(n[|n| - 1])
    && forall k :: 0 <= k < |n| ==> n[k] !in {'<', '>', '(', ')', '"'}
  }

  /** The address of any text ending "<addr>" is addr. */
  lemma AddressInAngles(pre: string, a: string, addrLen: nat)
    requires AddrText(a) && |a| <= addrLen && (pre == [] || !IsSpace(pre[0]))
    requires '<' !in pre
    ensures MailAddress(pre + "<" + a + ">", addrLen) == a
  {
    var p := pre + "<" + a + ">";
    assert p[0] == if pre == [] then '<' else pre[0];
    SkipSpaceNone(p);
    LastAngle(pre, a);
    var r := a + ">";
    assert r[0] == a[0];
    SkipSpaceNone(r);
    TakeTrunc(a, ">", addrLen, {'>', '(', ' '});
  }

  /** The text after the last '<' of pre "<" a ">". */
  lemma LastAngle(pre: string, a: string)
    requires '<' !in pre && '<' !in a
    ensures AfterLast(pre + "<" + a + ">", '<') == a + ">"
  {
    var p := pre + "<" + a + ">";
    assert p[|pre|] == '<';
    assert forall k :: |pre| < k < |p| ==> p[k] != '<';
    LastIndexOfAt(p, '<', |pre|);
    assert p[|pre| + 1..] == a + ">";
  }

  /** "<addr>": both the name and the address are the bracketed text. */
  lemma AngleAddressOnly(a: string, nameLen: nat, addrLen: nat)
    requires AddrText(a) && |a| + 2 <= 127 && |a| <= nameLen && |a| <= addrLen
    ensures ParseMailAddress("<" + a + ">", nameLen, addrLen) == (a, a)
  {
    var p := "<" + a + ">";
    Unit("<");
    AddressInAngles([], a, addrLen);
    NameSourceAngle(a);
    NameFrom(p, a, nameLen);
  }

  /** name <addr>: the name before the brackets, the address inside them. */
  lemma NameThenAngleAddress(n: string, a: string, nameLen: nat, addrLen: nat)
    requires NameText(n) && AddrText(a) && |n| + |a| + 3 <= 127 && |n| <= nameLen && |a| <= addrLen
    ensures ParseMailAddress(n + " <" + a + ">", nameLen, addrLen) == (n, a)
  {
    var p := n + " <" + a + ">";
    assert p == (n + " ") + "<" + a + ">";
    AddressInAngles(n + " ", a, addrLen);
    NameSourcePhrase(n, a);
    assert p[0] == n[0];
    SkipSpaceNone(p);
    TakeAll(p, 127);
    TakeTrim(n, nameLen);
  }

  /** "name" <addr>: the name inside the quotes, the address inside the brackets. */
  lemma QuotedNameThenAngleAddress(n: string, a: string, nameLen: nat, addrLen: nat)
    requires NameText(n) && AddrText(a) && |n| + |a| + 5 <= 127 && |n| <= nameLen && |a| <= addrLen
    ensures ParseMailAddress("\"" + n + "\" <" + a + ">", nameLen, addrLen) == (n, a)
  {
    var p := "\"" + n + "\" <" + a + ">";
    assert p == ("\"" + n + "\" ") + "<" + a + ">";
    AddressInAngles("\"" + n + "\" ", a, addrLen);
    NameSourceQuoted(n, a);
    NameFrom(p, n, nameLen);
  }

  /** addr (name): the address before the comment, the name inside it. */
  lemma AddressThenComment(a: string, n: string, nameLen: nat, addrLen: nat)
    requires NameText(n) && AddrText(a) && |n| + |a| + 3 <= 127 && |n| <= nameLen && |a| <= addrLen
    ensures ParseMailAddress(a + " (" + n + ")", nameLen, addrLen) == (n, a)
  {
    var p := a + " (" + n + ")";
    assert p[0] == a[0];
    SkipSpaceNone(p);
    assert '<' !in p;
    assert p == a + (" (" + n + ")");
    TakeTrunc(a, " (" + n + ")", addrLen, {'>', '(', ' '});
    NameSourceComment(a, n);
    NameFrom(p, n, nameLen);
  }

  /** The name of a short input that starts without white-space is the
      trimmed `NameSource` of it. */
  lemma NameFrom(p: string, n: string, nameLen: nat)
    requires p != [] && !IsSpace(p[0]) && |p| <= 127 && NameSource(p) == n
    requires n == [] || !IsSpace(n[|n| - 1])
    requires |n| <= nameLen
    ensures MailName(p, nameLen) == n
  {
    ShortTextKept(p);
    MailNameCut(p, p, nameLen);
    NameOfTrimmed(p, n, nameLen);
  }

  /** A short text that starts without white-space is not cut down. */
  lemma ShortTextKept(p: string)
    requires p != [] && !IsSpace(p[0]) && |p| <= 127
    ensures Take(SkipSpace(p), 127) == p
  {
    var q := SkipSpace(p);
    SkipSpaceNone(p);
    assert q == p;
    TakeAll(q, 127);
  }

  /** A name source that fits and has no trailing white-space is the name. */
  lemma NameOfTrimmed(t: string, n: string, nameLen: nat)
    requires NameSource(t) == n && (n == [] || !IsSpace(n[|n| - 1])) && |n| <= nameLen
    ensures NameOf(t, nameLen) == n
  {
    TakeAll(n, nameLen);
    TrimEndKeeps(n);
  }

  /** The name is read from the text the parser cuts down. */
  lemma MailNameCut(p: string, t: string, nameLen: nat)
    requires Take(SkipSpace(p), 127) == t
    ensures MailName(p, nameLen) == NameOf(t, nameLen)
  {
  }

  lemma NameSourceAngle(a: string)
    requires AddrText(a)
    ensures NameSource("<" + a + ">") == a
  {
    var p := "<" + a + ">";
    assert '(' !in p && '"' !in p;
    assert p[1..] == a + ">";
    TruncAtStop(a, ">", {'>'});
  }

  lemma NameSourcePhrase(n: string, a: string)
    requires NameText(n) && AddrText(a)
    ensures NameSource(n + " <" + a + ">") == n + " "
  {
    var p := n + " <" + a + ">";
    assert '(' !in p && '"' !in p && p[0] != '<';
    assert p == (n + " ") + ("<" + a + ">");
    TruncAtStop(n + " ", "<" + a + ">", {'<'});
  }

  lemma NameSourceQuoted(n: string, a: string)
    requires NameText(n) && AddrText(a)
    ensures NameSource("\"" + n + "\" <" + a + ">") == n
  {
    var p := "\"" + n + "\" <" + a + ">";
    assert IndexOf(p, '(') == None by {
      assert forall k :: 0 <= k < |p| ==> p[k] != '(';
    }
    assert IndexOf(p, '"') == Some(0) by {
      IndexOfFirst(p, '"', 0);
    }
    assert p[1..] == n + ("\" <" + a + ">");
    TruncAtStop(n, "\" <" + a + ">", {'"'});
  }

  lemma NameSourceComment(a: string, n: string)
    requires NameText(n) && AddrText(a)
    ensures NameSource(a + " (" + n + ")") == n
  {
    var p := a + " (" + n + ")";
    assert IndexOf(p, '(') == Some(|a| + 1) by {
      assert forall k :: 0 <= k < |a| + 1 ==> p[k] != '(';
      IndexOfFirst(p, '(', |a| + 1);
    }
    assert p[|a| + 2..] == n + ")";
    TruncAtStop(n, ")", {')'});
  }

  /** Cutting "name " to at least |name| bytes and trimming gives the name. */
  lemma TakeTrim(n: string, len: nat)
    requires n != [] && !IsSpace(n[|n| - 1]) && |n| <= len
    ensures TrimEnd(Take(n + " ", len)) == n
  {
    if |n| == len {
      assert Take(n + " ", len) == n;
    } else {
      assert Take(n + " ", len) == n + " ";
      assert (n + " ")[..|n|] == n;
    }
  }

  /** Cutting `a` + `t` to `n` >= |a| bytes and then at a stop that `t` starts
      with leaves `a`. */
  lemma TakeTrunc(a: string, t: string, n: nat, stops: set<char>)
    requires forall k :: 0 <= k < |a| ==> a[k] !in stops
    requires t != [] && t[0] in stops && |a| <= n
    ensures TruncAt(Take(a + t, n), stops) == a
  {
    if |a| == n {
      assert Take(a + t, n) == a;
      TruncAtNone(a, stops);
    } else {
      var u := Take(a + t, n);
      assert u == a + u[|a|..];
      TruncAtStop(a, u[|a|..], stops);
    }
  }

  // ---------------------------------------------------------------- Received: lines

  /** strstr: the index of the first occurrence of `pat` in `s`. */
  function Find(s: string, pat: string): (r: Option<nat>)
    ensures r.Some? ==> r.value + |pat| <= |s| && s[r.value..r.value + |pat|] == pat
    decreases |s|
  {
    if |s| < |pat| then None
    else if s[..|pat|] == pat then Some(0)
    else match Find(s[1..], pat)
      case None => None
      case Some(i) =>
        assert s[1..][i..i + |pat|] == s[i + 1..i + 1 + |pat|];
        Some(i + 1)
  }

  /** The leading run of non-white-space characters. */
  function NonSpaceRun(s: string): (r: string)
    ensures |r| <= |s| && forall k :: 0 <= k < |r| ==> !IsSpace(r[k])
  {
    if s == [] || IsSpace(s[0]) then [] else [s[0]] + NonSpaceRun(s[1..])
  }

  /** The characters of `s` after its leading run of characters from `d`. */
  function SkipIn(s: string, d: set<char>): (r: string)
    ensures |r| <= |s| && r == s[|s| - |r|..]
    ensures r == [] || r[0] !in d
  {
    if s != [] && s[0] in d then SkipIn(s[1..], d) else s
  }

  /** strtok_r: the next token of `s` delimited by the characters of `d`, and
      what follows the delimiter that ends it; None when only delimiters are
      left. */
  function StrTok(s: string, d: set<char>): (r: Option<(string, string)>)
    ensures r.Some? ==> r.value.0 != [] && forall k :: 0 <= k < |r.value.0| ==> r.value.0[k] !in d
  {
    var t := SkipIn(s, d);
    if t == [] then None
    else
      var tok := TruncAt(t, d);
      Some((tok, if |tok| < |t| then t[|tok| + 1..] else []))
  }

  /** chk_received_hdr, the host: the word after the first "from " (at
      most 126 bytes); None when nothing follows it. */
  function FromHost(l: string): (r: Option<string>)
    ensures r.Some? ==> 0 < |r.value| <= 126 && forall k :: 0 <= k < |r.value| ==> !IsSpace(r.value[k])
  {
    match Find(l, "from ")
    case None => None
    case Some(i) =>
      var p := SkipSpace(l[i + 4..]);
      if p == [] then None else Some(Take(NonSpaceRun(p), 126))
  }

  /** chk_received_hdr, the address: the second strtok_r token, ended by ']',
      after the first, ended by '[' (at most 15 bytes). */
  function BracketAddr(l: string): (r: Option<string>)
    ensures r.Some? ==> 0 < |r.value| <= 15
  {
    match StrTok(l, {'['})
    case None => None
    case Some(t1) =>
      match StrTok(t1.1, {']'})
      case None => None
      case Some(t2) => Some(Take(t2.0, 15))
  }

  /** chk_received_hdr: the host name and the address a Received: value
      names, read from its lower-cased copy; None when either is missing. */
  function ReceivedHost(value: string): Option<(string, string)> {
    var l := Lower(value);
    var h := FromHost(l);
    var a := BracketAddr(l);
    if h.Some? && a.Some? then Some((h.value, a.value)) else None
  }

  /** A host name or address as the Received: lemma takes it: in lower case,
      without white-space or brackets. */
  predicate HostText(h: string, max: nat) {
    0 < |h| <= max
    && forall k :: 0 <= k < |h| ==> !IsSpace(h[k]) && h[k] != '[' && h[k] != ']' && !('A' <= h[k] <= 'Z')
  }

  /** "from host [ip]...": the host and the address are read back. */
  lemma ReceivedFromHost(h: string, ip: string, rest: string)
    requires HostText(h, 126) && HostText(ip, 15)
    ensures ReceivedHost("from " + h + " [" + ip + "]" + rest) == Some((h, ip))
  {
    var x := "from " + h + " [" + ip + "]";
    assert forall k :: 0 <= k < |x| ==> !('A' <= x[k] <= 'Z');
    LowerKeeps(x);
    LowerConcat(x, rest);
    var r := Lower(rest);
    var l := x + r;
    RegroupFrom(h, ip, r);
    var t := " [" + ip + "]" + r;
    assert t[0] == ' ';
    FromHostOf(h, t);
    assert FromHost(l) == Some(h);
    RegroupBracket(h, ip, r);
    NoBracketBefore(h);
    BracketAddrOf("from " + h + " ", ip, r);
    assert BracketAddr(l) == Some(ip);
  }

  lemma NoBracketBefore(h: string)
    requires HostText(h, 126)
    ensures forall k :: 0 <= k < |"from " + h + " "| ==> ("from " + h + " ")[k] != '['
  {
  }

  lemma RegroupFrom(h: string, ip: string, r: string)
    ensures "from " + h + " [" + ip + "]" + r == "from " + (h + (" [" + ip + "]" + r))
  {
  }

  lemma RegroupBracket(h: string, ip: string, r: string)
    ensures "from " + h + " [" + ip + "]" + r == "from " + h + " " + "[" + ip + "]" + r
  {
    assert " [" == " " + "[";
    Assoc("from " + h, " ", "[");
  }

  lemma FromHostOf(h: string, t: string)
    requires HostText(h, 126) && t != [] && IsSpace(t[0])
    ensures FromHost("from " + (h + t)) == Some(h)
  {
    var l := "from " + (h + t);
    assert l[..5] == "from ";
    assert l[4..] == " " + (h + t);
    assert (h + t)[0] == h[0];
    SkipOneSpace(h + t);
    NonSpaceRunStop(h, t);
    TakeAll(h, 126);
  }

  lemma BracketAddrOf(a: string, ip: string, r: string)
    requires a != [] && (forall k :: 0 <= k < |a| ==> a[k] != '[') && HostText(ip, 15)
    ensures BracketAddr(a + "[" + ip + "]" + r) == Some(ip)
  {
    var rest := ip + ([']'] + r);
    RegroupTokens(a, ip, r);
    StrTokAt(a, '[', rest, {'['});
    NoCloseIn(ip);
    StrTokAt(ip, ']', r, {']'});
    BracketAddrTok(a + "[" + ip + "]" + r, rest, ip, r);
  }

  lemma NoCloseIn(ip: string)
    requires HostText(ip, 15)
    ensures forall k :: 0 <= k < |ip| ==> ip[k] !in {']'}
  {
  }

  /** The two tokens BracketAddr reads. */
  lemma BracketAddrTok(l: string, rest: string, ip: string, r: string)
    requires StrTok(l, {'['}).Some? && StrTok(l, {'['}).value.1 == rest
    requires StrTok(rest, {']'}) == Some((ip, r)) && |ip| <= 15
    ensures BracketAddr(l) == Some(ip)
  {
    TakeAll(ip, 15);
  }

  lemma RegroupTokens(a: string, ip: string, r: string)
    ensures a + "[" + ip + "]" + r == a + (['['] + (ip + ([']'] + r)))
  {
  }

  /** A token without delimiters, ended by one, is the next strtok_r token. */
  lemma StrTokAt(a: string, c: char, rest: string, d: set<char>)
    requires a != [] && (forall k :: 0 <= k < |a| ==> a[k] !in d) && c in d
    ensures StrTok(a + ([c] + rest), d) == Some((a, rest))
  {
    var s := a + ([c] + rest);
    assert s[0] == a[0];
    assert SkipIn(s, d) == s;
    TruncAtStop(a, [c] + rest, d);
    assert s[|a| + 1..] == rest;
  }

  lemma NonSpaceRunStop(h: string, t: string)
    requires forall k :: 0 <= k < |h| ==> !IsSpace(h[k])
    requires t != [] && IsSpace(t[0])
    ensures NonSpaceRun(h + t) == h
  {
    if h != [] {
      assert (h + t)[1..] == h[1..] + t;
      NonSpaceRunStop(h[1..], t);
    }
  }

  // ---------------------------------------------------------------- "#tag" user names

  /** smtp_splittag: the user name before the first '#' (leading '#'s are
      skipped) and the tag, all of the rest, if any. None for a name made
      only of '#'s. */
  function SplitTag(s: string): (r: Option<(string, Option<string>)>)
    ensures r.Some? ==> r.value.0 != [] && '#' !in r.value.0
    ensures r.Some? && r.value.1.Some? ==> r.value.1.value != []
  {
    match StrTok(s, {'#'})
    case None => None
    case Some(t) => Some((t.0, if t.1 == [] then None else Some(t.1)))
  }

  const UINT_MAX: nat := 0xFFFF_FFFF

  /** smtp_matchuser: the number of the user named before the '#' (0 when
      there is none), or UINT_MAX when the tag is listed as blocked for that
      user. `lookup` stands for the user database (0: no such user),
      `blocked` for the user's smtpblock list. */
  function MatchUser(s: string, lookup: string -> nat, blocked: (string, nat) -> bool): (r: nat)
    ensures r != 0 ==> SplitTag(s).Some?
    ensures r != 0 && r != UINT_MAX ==> r == lookup(SplitTag(s).value.0)
  {
    match SplitTag(s)
    case None => 0
    case Some(t) =>
      var u := lookup(t.0);
      if u == 0 then 0
      else if t.1.Some? && blocked(t.1.value, u) then UINT_MAX
      else u
  }

  /** "name#tag" splits into the name and the tag; the tag may hold '#'. */
  lemma SplitTagOf(name: string, tag: string)
    requires name != [] && '#' !in name && tag != []
    ensures SplitTag(name + "#" + tag) == Some((name, Some(tag)))
    ensures SplitTag(name) == Some((name, None))
  {
    var s := name + "#" + tag;
    assert s == name + ("#" + tag);
    assert s[0] == name[0];
    assert SkipIn(s, {'#'}) == s;
    TruncAtStop(name, "#" + tag, {'#'});
    assert s[|name| + 1..] == tag;
    assert SkipIn(name, {'#'}) == name;
    TruncAtNone(name, {'#'});
  }

  /** A tag on the smtpblock list refuses the mail (UINT_MAX); any other tag,
      or none, gives the user's number. */
  lemma MatchUserTag(name: string, tag: string, lookup: string -> nat, blocked: (string, nat) -> bool)
    requires name != [] && '#' !in name && tag != [] && lookup(name) != 0
    ensures MatchUser(name + "#" + tag, lookup, blocked) == if blocked(tag, lookup(name)) then UINT_MAX else lookup(name)
    ensures MatchUser(name, lookup, blocked) == lookup(name)
  {
    SplitTagOf(name, tag);
  }

  // ---------------------------------------------------------------- SMTP arguments

  /** MAIL FROM: the reverse path, without leading white-space, held in 127
      bytes and cut at the first space, which drops any ESMTP parameters
      (section 6 of RFC 1869). */
  function ReversePath(arg: string): (r: string)
    ensures |r| <= 127 && ' ' !in r
  {
    TruncAt(Take(SkipSpace(arg), 127), {' '})
  }

  lemma ReversePathDropsParameters(path: string, params: string)
    requires path != [] && ' ' !in path && !IsSpace(path[0]) && |path| <= 127
    ensures ReversePath(path + " " + params) == path
  {
    var s := path + " " + params;
    assert s[0] == path[0];
    SkipSpaceNone(s);
    assert s == path + (" " + params);
    TakeTrunc(path, " " + params, 127, {' '});
  }

  datatype RcptArg = NoRecipient | Recipient(addr: string, forward: bool, noForward: bool)

  /** RCPT TO: the text the address is taken from. The argument is held in
      511 bytes; the text starts after its last '<' and ends where the
      argument's first '>' is, when that '>' is not before it (otherwise it
      runs to the end: truncstr wrote its NUL earlier in the buffer). */
  function RcptText(arg: string): string {
    RcptSlice(Take(SkipSpace(arg), 511))
  }

  /** The part of the held argument after its last '<', cut at its first
      '>' when that is not before it. */
  function RcptSlice(str: string): string {
    var start := match LastIndexOf(str, '<') case None => 0 case Some(i) => i + 1;
    match IndexOf(str, '>')
    case Some(j) => if j >= start then str[start..j] else str[start..]
    case None => str[start..]
  }

  /** A "forward:" prefix, then a "local:" prefix, removed ignoring case,
      with whether each was there. */
  function StripPrefixes(p: string): (r: (string, bool, bool))
    ensures r.1 <==> IPrefix(FORWARD, p)
    ensures !r.1 ==> (r.2 <==> IPrefix(NO_FORWARD, p))
    ensures |r.0| <= |p| && r.0 == p[|p| - |r.0|..]
  {
    var fwd := IPrefix(FORWARD, p);
    var p1 := if fwd then p[|FORWARD|..] else p;
    var local := IPrefix(NO_FORWARD, p1);
    (if local then p1[|NO_FORWARD|..] else p1, fwd, local)
  }

  /** RCPT TO: the recipient address, cut to 127 bytes, with the forwarding
      flags; nothing left answers "500 No recipient specified". */
  function RcptArgument(arg: string): (r: RcptArg)
    ensures r.Recipient? ==> 0 < |r.addr| <= 127
    ensures r.NoRecipient? <==> StripPrefixes(RcptText(arg)).0 == []
  {
    var t := StripPrefixes(RcptText(arg));
    if t.0 == [] then NoRecipient else Recipient(Take(t.0, 127), t.1, t.2)
  }

  const FORWARD: string := "forward:"
  const NO_FORWARD: string := "local:"

  /** The reply to an empty recipient. */
  const NoRecipientReply: string := "500 No recipient specified"

  /** An address that starts with neither prefix. */
  predicate Unprefixed(a: string) {
    !IPrefix(FORWARD, a) && !IPrefix(NO_FORWARD, a)
  }

  /** The text of an argument that starts with a '<', from where its last
      '<' and first '>' are. */
  lemma RcptTextAt(s: string, i: nat, j: nat)
    requires s != [] && s[0] == '<' && |s| <= 511
    requires LastIndexOf(s, '<') == Some(i) && IndexOf(s, '>') == Some(j)
    ensures RcptText(s) == if j >= i + 1 then s[i + 1..j] else s[i + 1..]
  {
    assert Take(SkipSpace(s), 511) == s by {
      SkipSpaceNone(s);
      TakeAll(s, 511);
    }
  }

  /** The text inside "<...>", whatever follows without brackets. */
  lemma RcptInAngles(t: string, params: string)
    requires '<' !in t && '>' !in t && '<' !in params && '>' !in params && |t| + 2 + |params| <= 511
    ensures RcptText("<" + t + ">" + params) == t
  {
    AnglesAt(t, params);
    RcptTextAt("<" + t + ">" + params, 0, |t| + 1);
  }

  lemma AnglesAt(t: string, params: string)
    requires '<' !in t && '>' !in t && '<' !in params && '>' !in params
    ensures var s := "<" + t + ">" + params;
      s[0] == '<' && LastIndexOf(s, '<') == Some(0) && IndexOf(s, '>') == Some(|t| + 1) && s[1..|t| + 1] == t
  {
    var s := "<" + t + ">" + params;
    assert LastIndexOf(s, '<') == Some(0) by {
      assert forall k :: 0 < k < |s| ==> s[k] != '<';
      LastIndexOfAt(s, '<', 0);
    }
    assert IndexOf(s, '>') == Some(|t| + 1) by {
      assert forall k :: 0 <= k < |t| + 1 ==> s[k] != '>';
      IndexOfFirst(s, '>', |t| + 1);
    }
    assert s[1..|t| + 1] == t;
  }

  /** "<addr>" with any bracket-free parameters names addr. */
  lemma RcptAddress(a: string, params: string)
    requires a != [] && '<' !in a && '>' !in a && Unprefixed(a)
    requires '<' !in params && '>' !in params && |a| + 2 + |params| <= 511
    ensures RcptArgument("<" + a + ">" + params) == Recipient(Take(a, 127), false, false)
  {
    RcptInAngles(a, params);
  }

  /** "forward:" asks for forwarding to the user's netmail address, "local:"
      forbids it; either is removed from the address. */
  lemma RcptPrefixes(a: string)
    requires Unprefixed(a)
    ensures StripPrefixes(FORWARD + a) == (a, true, false)
    ensures StripPrefixes(NO_FORWARD + a) == (a, false, true)
    ensures StripPrefixes(a) == (a, false, false)
  {
    PrefixOf(FORWARD, a);
    PrefixOf(NO_FORWARD, a);
    assert !IPrefix(FORWARD, NO_FORWARD + a) by {
      assert ToUpper((NO_FORWARD + a)[0]) != ToUpper(FORWARD[0]);
    }
  }

  lemma PrefixOf(p: string, a: string)
    ensures IPrefix(p, p + a) && (p + a)[|p|..] == a
  {
    assert (p + a)[..|p|] == p;
  }

  /** "<>" names no recipient. */
  lemma RcptEmpty()
    ensures RcptArgument("<>") == NoRecipient
  {
    var s := "<>";
    assert RcptText(s) == [] by {
      assert LastIndexOf(s, '<') == Some(0) by {
        LastIndexOfAt(s, '<', 0);
      }
      assert IndexOf(s, '>') == Some(1) by {
        IndexOfFirst(s, '>', 1);
      }
      RcptTextAt(s, 0, 1);
    }
    assert StripPrefixes([]).0 == [];
  }

  /** The first '>' ends the argument in place: when it comes before the last
      '<', the address after that '<' keeps its own '>'. */
  lemma RcptLateAngle()
    ensures RcptText("<a>x<b>") == "b>"
  {
    var s := "<a>x<b>";
    assert LastIndexOf(s, '<') == Some(4) by {
      LastIndexOfAt(s, '<', 4);
    }
    assert IndexOf(s, '>') == Some(2) by {
      IndexOfFirst(s, '>', 2);
    }
    RcptTextAt(s, 4, 2);
    assert s[5..] == "b>";
  }

  // ---------------------------------------------------------------- addresses of servers

  /** What resolve_ip does with a server name: nothing to resolve, a dotted
      numeric address to convert (inet_addr), or a host name to look up. */
  datatype AddrQuery = NoAddress | Numeric(dotted: string) | Lookup(host: string)

  predicate DottedText(s: string) {
    forall k :: 0 <= k < |s| ==> IsDigit(s[k]) || s[k] == '.'
  }

  /** resolve_ip: the name is held in 127 bytes; "[...]" brackets are
      removed; an empty name has no address, one made only of digits and
      dots is numeric, and any other is looked up as it was given. */
  function ResolveIp(inaddr: string): (r: AddrQuery)
    ensures r.Numeric? ==> r.dotted != [] && DottedText(r.dotted) && |r.dotted| <= 127
    ensures r.Lookup? ==> r.host == inaddr
  {
    var buf := Take(inaddr, 127);
    var addr := if |buf| >= 2 && buf[0] == '[' && buf[|buf| - 1] == ']' then buf[1..|buf| - 1] else buf;
    if addr == [] then NoAddress
    else if DottedText(addr) then Numeric(addr)
    else Lookup(inaddr)
  }

  /** An address literal "[d]" and the plain dotted form "d" give the same
      numeric address; a bracketed host name is looked up with its brackets. */
  lemma ResolveIpForms(d: string, h: string)
    requires d != [] && DottedText(d) && |d| + 2 <= 127
    requires h != [] && !DottedText(h) && |h| + 2 <= 127
    ensures ResolveIp("[" + d + "]") == Numeric(d) && ResolveIp(d) == Numeric(d)
    ensures ResolveIp("[" + h + "]") == Lookup("[" + h + "]")
    ensures ResolveIp("") == NoAddress && ResolveIp("[]") == NoAddress
  {
    TakeAll(d, 127);
    Inside(d);
    Inside(h);
    assert Take("[]", 127) == "[]";
  }

  lemma Inside(d: string)
    requires |d| + 2 <= 127
    ensures var b := "[" + d + "]"; Take(b, 127) == b && b[0] == '[' && b[|b| - 1] == ']' && b[1..|b| - 1] == d
  {
  }

  /** The envelope recipient of the delivery thread: the forward path when
      there is one (held in 255 bytes), else the text after the last '<' of
      the recipient address, held in 255 bytes and cut at the first '>' or
      space, without a ":port" after its last '@'. */
  function EnvelopeTo(addr: string, forwardPath: Option<string>): (r: string)
    ensures |r| <= 255
    ensures forwardPath.Some? ==> |r| <= |forwardPath.value| && r == forwardPath.value[..|r|]
    ensures forwardPath.None? ==> '>' !in r && ' ' !in r
  {
    match forwardPath
    case Some(f) => Take(f, 255)
    case None => StripPort(TruncAt(Take(AfterLast(addr, '<'), 255), {'>', ' '}))
  }

  /** The ":port" designation is removed when the last ':' comes after the
      last '@'. */
  function StripPort(t: string): (r: string)
    ensures |r| <= |t| && r == t[..|r|]
  {
    match LastIndexOf(t, '@')
    case None => t
    case Some(a) =>
      match LastIndexOf(t, ':')
      case Some(c) => if c > a then t[..c] else t
      case None => t
  }

  /** Mail text without the characters that end or split an envelope address. */
  predicate EnvText(s: string) {
    forall k :: 0 <= k < |s| ==> s[k] !in {'<', '>', ' ', '@', ':'}
  }

  /** "user@host:port" goes to "user@host"; an address without a port stays
      as it is. */
  lemma StripPortOf(u: string, h: string, port: string)
    requires EnvText(h) && EnvText(port)
    ensures StripPort(u + "@" + h + ":" + port) == u + "@" + h
    ensures StripPort(u + "@" + h) == u + "@" + h
  {
    var t := u + "@" + h + ":" + port;
    var a := |u|;
    var c := |u| + 1 + |h|;
    assert t[a] == '@' && forall k :: a < k < |t| ==> t[k] != '@';
    LastIndexOfAt(t, '@', a);
    assert t[c] == ':' && forall k :: c < k < |t| ==> t[k] != ':';
    LastIndexOfAt(t, ':', c);
    assert t[..c] == u + "@" + h;
    var w := u + "@" + h;
    assert w[a] == '@' && forall k :: a < k < |w| ==> w[k] != '@' && w[k] != ':';
    LastIndexOfAt(w, '@', a);
    assert forall k :: a <= k < |w| ==> w[k] != ':';
    LastColonBefore(w, a);
  }

  lemma LastColonBefore(w: string, a: nat)
    requires a <= |w| && forall k :: a <= k < |w| ==> w[k] != ':'
    ensures LastIndexOf(w, ':').None? || LastIndexOf(w, ':').value < a
  {
  }

  /** "<user@host:port>" from the message's recipient address is sent as
      RCPT TO: <user@host>. */
  lemma EnvelopeDropsPort(u: string, h: string, port: string)
    requires EnvText(u) && EnvText(h) && EnvText(port) && |u| + |h| + |port| + 2 <= 255
    ensures EnvelopeTo("<" + u + "@" + h + ":" + port + ">", None) == u + "@" + h
  {
    var x := u + "@" + h + ":" + port;
    RegroupAngles(u, h, port);
    EnvTextNoStops(u, h, port);
    EnvelopeInner(x);
    StripPortOf(u, h, port);
  }

  lemma RegroupAngles(u: string, h: string, port: string)
    ensures "<" + u + "@" + h + ":" + port + ">" == "<" + (u + "@" + h + ":" + port) + ">"
  {
  }

  lemma EnvTextNoStops(u: string, h: string, port: string)
    requires EnvText(u) && EnvText(h) && EnvText(port)
    ensures var x := u + "@" + h + ":" + port; '<' !in x && '>' !in x && ' ' !in x
  {
  }

  lemma EnvelopeInner(x: string)
    requires '<' !in x && '>' !in x && ' ' !in x && |x| <= 255
    ensures TruncAt(Take(AfterLast("<" + x + ">", '<'), 255), {'>', ' '}) == x
  {
    LastAngle([], x);
    Unit("<");
    assert forall k :: 0 <= k < |x| ==> x[k] !in {'>', ' '};
    TakeTrunc(x, ">", 255, {'>', ' '});
  }

  // ---------------------------------------------------------------- DNS blacklist

  /** rblchk: the name queried for an IPv4 address at a blacklist domain: the
      four octets of the address (in host order) from the lowest to the
      highest, each in decimal, then the domain cut to 128 bytes. */
  function DnsblName(addr: nat, rbl: string): (r: string)
    requires addr < 0x1_0000_0000
    ensures |r| > |Take(rbl, 128)| && r[|r| - |Take(rbl, 128)|..] == Take(rbl, 128)
    ensures r[|r| - |Take(rbl, 128)| - 1] == '.'
  {
    Dec(addr % 256) + "." + Dec(addr / 0x100 % 256) + "." + Dec(addr / 0x10000 % 256) + "."
      + Dec(addr / 0x1000000 % 256) + "." + Take(rbl, 128)
  }

  /** The address a.b.c.d is queried as d.c.b.a.<domain>, the reversed form of
      section 2.1 of RFC 5782, and the name fits the 256-byte buffer. */
  lemma DnsblNameReversed(a: nat, b: nat, c: nat, d: nat, rbl: string)
    requires a < 256 && b < 256 && c < 256 && d < 256
    ensures a * 0x1000000 + b * 0x10000 + c * 0x100 + d < 0x1_0000_0000
    ensures DnsblName(a * 0x1000000 + b * 0x10000 + c * 0x100 + d, rbl)
      == Dec(d) + "." + Dec(c) + "." + Dec(b) + "." + Dec(a) + "." + Take(rbl, 128)
    ensures |DnsblName(a * 0x1000000 + b * 0x10000 + c * 0x100 + d, rbl)| < 256
  {
    Octets(a, b, c, d);
    var x := a * 0x1000000 + b * 0x10000 + c * 0x100 + d;
    DnsblNameOf(x, a, b, c, d, rbl);
  }

  lemma DnsblNameOf(x: nat, a: nat, b: nat, c: nat, d: nat, rbl: string)
    requires a < 256 && b < 256 && c < 256 && d < 256 && x < 0x1_0000_0000
    requires x % 256 == d && x / 0x100 % 256 == c && x / 0x10000 % 256 == b && x / 0x1000000 % 256 == a
    ensures DnsblName(x, rbl) == Dec(d) + "." + Dec(c) + "." + Dec(b) + "." + Dec(a) + "." + Take(rbl, 128)
    ensures |DnsblName(x, rbl)| < 256
  {
    DecShort(a);
    DecShort(b);
    DecShort(c);
    DecShort(d);
  }

  lemma Octets(a: nat, b: nat, c: nat, d: nat)
    requires a < 256 && b < 256 && c < 256 && d < 256
    ensures var x := a * 0x1000000 + b * 0x10000 + c * 0x100 + d;
      x < 0x1_0000_0000 && x % 256 == d && x / 0x100 % 256 == c && x / 0x10000 % 256 == b && x / 0x1000000 % 256 == a
  {
    var x := a * 0x1000000 + b * 0x10000 + c * 0x100 + d;
    assert x == (a * 0x10000 + b * 0x100 + c) * 256 + d;
    assert x / 0x100 == a * 0x10000 + b * 0x100 + c;
    assert x / 0x100 == (a * 0x100 + b) * 256 + c;
    assert x / 0x10000 == a * 0x100 + b;
    assert x / 0x1000000 == a;
  }

  /** An octet has at most three decimal digits. */
  lemma DecShort(n: nat)
    requires n < 256
    ensures |Dec(n)| <= 3
  {
    if n >= 10 {
      DecShort(n / 10);
    }
  }
}

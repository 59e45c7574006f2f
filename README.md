# Synchronet mail server and message editor, modelled in Dafny

This project models the core of Synchronet BBS's Internet mail server
(`src/sbbs3/mailsrvr.c`) and the message-editing filters of its terminal
server (`src/sbbs3/writemsg.cpp`), and proves properties of the model.

The model covers:

- the SMTP session: the command dispatcher, the session variables it
  updates, and the MAIL FROM / RCPT TO / DATA transaction with its
  routing of recipients (local user, QWK-routed, relayed, refused);
- parsing of RFC 822 header lines, mail addresses, the `Received:` host,
  user tags and the envelope arguments of MAIL and RCPT;
- the external mail processors (`%` command-line expansion, the
  processor chain and how their error files turn into replies);
- the codecs: quoted-printable decoding in place, the body loop that
  dot-stuffs and frames outgoing lines, the line reader and the reply
  reader;
- SMTP AUTH: the LOGIN, PLAIN and CRAM-MD5 exchanges and their checks
  against the user base, with the CRAM-MD5 HMAC key block, the APOP
  digest of POP3 and the field walk of AUTH PLAIN;
- the POP3 transaction state over a mailbox snapshot (STAT, LIST, UIDL,
  RETR, TOP, DELE, RSET);
- outbound delivery: claiming a queued message, building its route,
  trying its mail exchangers, and the bounce with its failure notice;
- the message editor: `process_edited_text`, `removeline`, the line
  editor's import, save, `/D` and `/I` commands and line entry, and the
  attribute menu `chmsgattr`.

The parts that change state in place in the source are Dafny classes
with `modifies` frames, and their loops are `while` loops with
invariants:

- `SmtpSession.Session` holds the variables of `smtp_thread`. `Snapshot()`
  gives them as one `Vars` value, and each command's method states the
  whole `Vars` afterwards as a function of the `Vars` before (`Step`,
  `Effect`, `Greeted`, `Emptied`, `Opened`, `Recipiented`, `DataStarted`,
  `Captured`, `Ended`);
- `Pop3.Transaction` holds the message base's attribute array;
- `Delivery.Queued` and `Delivery.Sender` hold a queued message's header
  and the sender's per-pass failed list;
- `Editor.LineEditor` holds the line array of `msgeditor`.

Each method is proved against a function of the same module, and the
lemmas are stated about those functions.

Look-ups into the user base, the message base, DNS, files and the
network are parameters. The SMTP side takes them as a `Facts` value.
Delivery takes remote replies and refusals as a `Network` function.
MD5, hex and base64 are parameters of the digests that use them.
C's signed `char` is a parameter wherever it changes a comparison.
`ulong` is taken as 64 bits wide, and `ushort` counters wrap at 65536.

## Model

| member | source | states |
|---|---|---|
| Headers.GetHeaderField | src/sbbs3/mailsrvr.c:1937-1957 | A line has a field exactly when it is non-empty, its first byte is above ' ' (as the char's signedness reads it) and it holds a ':'. The name is shorter than maxlen, and the value does not start with white-space. |
| Headers.GetHeaderFieldRoundTrip | src/sbbs3/mailsrvr.c:1937-1957 | "name: value" reads back as the name and the value. |
| Headers.FoldedLineContinues | src/sbbs3/mailsrvr.c:1967-1977 | A line that is empty or starts with a byte of at most ' ' is appended to the previous field, whose type stays current. |
| Headers.LineWithoutColonKept | src/sbbs3/mailsrvr.c:1979-1980 | A line without a ':' is stored whole as an RFC 822 header line. |
| Headers.KnownFieldStored | src/sbbs3/mailsrvr.c:1982-2027 | A field of a known name is stored as its value under that name's header type, which becomes the current type. |
| Headers.ReplyToStoresAddress | src/sbbs3/mailsrvr.c:1995-2005 | "Reply-To: <addr>" stores the value, an Internet net type and the address inside the brackets. |
| Headers.DateSetsWritten | src/sbbs3/mailsrvr.c:2012-2016 | Date sets the written time from the value and stores no field. |
| Headers.ReturnPathIgnored | src/sbbs3/mailsrvr.c:2029-2032 | Return-Path is skipped: nothing is stored. |
| Headers.OtherFieldKept | src/sbbs3/mailsrvr.c:2034-2035 | A field of any other name is stored whole as an RFC 822 header line. |
| Headers.ParseFieldLine | src/sbbs3/mailsrvr.c:1979-2035 | A line that starts a field has the effect its classified name selects, whatever field was current before. |
| Headers.ParseHeaderField | src/sbbs3/mailsrvr.c:1959-2036 | Not seen by itself: its cases are stated by FoldedLineContinues, LineWithoutColonKept, KnownFieldStored, OtherFieldKept and ParseFieldLine. |
| Headers.ClassifyIgnoresCase | src/sbbs3/mailsrvr.c:1992-2032 | A field name is classified the same in lower case. |
| Headers.MailAddress | src/sbbs3/mailsrvr.c:2091-2100 | The address has at most addr_len bytes and holds no '>', '(' or space. |
| Headers.AddressInAngles | src/sbbs3/mailsrvr.c:2091-2100 | "phrase<addr>", with no '<' in the phrase, yields addr. |
| Headers.MailName | src/sbbs3/mailsrvr.c:2102-2118 | The name has at most name_len bytes and does not end in white-space. |
| Headers.ParseMailAddress | src/sbbs3/mailsrvr.c:2084-2119 | The name has at most name_len bytes and does not end in white-space. The address has at most addr_len bytes and holds no '>', '(' or space. |
| Headers.NameFrom | src/sbbs3/mailsrvr.c:2102-2118 | The name is the part of the value the source selects (comment, quoted text, bracketed address or leading phrase), trimmed. |
| Headers.AngleAddressOnly | src/sbbs3/mailsrvr.c:2084-2119 | "<addr>" gives addr as both the name and the address. |
| Headers.NameThenAngleAddress | src/sbbs3/mailsrvr.c:2084-2119 | "Name <addr>" gives Name and addr. |
| Headers.QuotedNameThenAngleAddress | src/sbbs3/mailsrvr.c:2084-2119 | "\"Name\" <addr>" gives Name, without the quotes, and addr. |
| Headers.AddressThenComment | src/sbbs3/mailsrvr.c:2084-2119 | "addr (Name)" gives Name and addr. |
| Headers.FromHost | src/sbbs3/mailsrvr.c:2053-2065 | The host of a Received: line is a non-empty run of at most 126 bytes without white-space. |
| Headers.BracketAddr | src/sbbs3/mailsrvr.c:2066-2073 | The address of a Received: line is a non-empty text of at most 15 bytes. |
| Headers.ReceivedFromHost | src/sbbs3/mailsrvr.c:2053-2073 | "from host [ip]..." yields host and ip. |
| Headers.SplitTag | src/sbbs3/mailsrvr.c:2169-2182 | The user name is non-empty and holds no '#'. A tag, when there is one, is non-empty. |
| Headers.SplitTagOf | src/sbbs3/mailsrvr.c:2169-2182 | "name#tag" splits into name and tag. A name without '#' has no tag. |
| Headers.MatchUser | src/sbbs3/mailsrvr.c:2184-2211 | A user number other than 0 and UINT_MAX is the look-up of the name before the tag. |
| Headers.MatchUserTag | src/sbbs3/mailsrvr.c:2184-2211 | "name#tag" finds name's user, or UINT_MAX when that user blocks the tag. A plain name finds its user. |
| Headers.ReversePath | src/sbbs3/mailsrvr.c:3539-3542 | The reverse path has at most 127 bytes and no space. |
| Headers.ReversePathDropsParameters | src/sbbs3/mailsrvr.c:3539-3542 | "path params" keeps the path and drops the ESMTP parameters. |
| Headers.StripPrefixes | src/sbbs3/mailsrvr.c:3614-3624 | The flags say exactly whether "forward:" and then "local:" led the address, case ignored. The rest is a suffix of the address. |
| Headers.RcptPrefixes | src/sbbs3/mailsrvr.c:3614-3624 | "forward:" + a and "local:" + a reduce to a with the matching flag, and a itself is kept. |
| Headers.RcptArgument | src/sbbs3/mailsrvr.c:3602-3634 | There is no recipient exactly when nothing is left once the prefixes are stripped. A recipient has 1 to 127 bytes. |
| Headers.RcptAddress | src/sbbs3/mailsrvr.c:3602-3634 | "<addr>params" gives addr with neither flag. |
| Headers.RcptInAngles | src/sbbs3/mailsrvr.c:3602-3612 | "<t>params" gives t. |
| Headers.RcptLateAngle | src/sbbs3/mailsrvr.c:3602-3612 | The text starts after the last '<', but ends at the first '>' only when that is not before it: "<a>x<b>" gives "b>". |
| Headers.RcptEmpty | src/sbbs3/mailsrvr.c:3626-3631 | "<>" names no recipient. |
| Headers.ResolveIp | src/sbbs3/mailsrvr.c:691-716 | A numeric answer is a non-empty dotted text of at most 127 bytes. Otherwise the resolver is asked for the name as given. |
| Headers.ResolveIpForms | src/sbbs3/mailsrvr.c:698-712 | "[d]" and d give the dotted d. "[h]" for a name h goes to the resolver. "" and "[]" are no address. |
| Headers.StripPort | src/sbbs3/mailsrvr.c:4732-4734 | The result is a prefix of the text. |
| Headers.StripPortOf | src/sbbs3/mailsrvr.c:4732-4734 | "u@h:port" gives u@h, and "u@h" stays as it is. |
| Headers.EnvelopeDropsPort | src/sbbs3/mailsrvr.c:4726-4736 | The envelope recipient sent for "<u@h:port>" is u@h. |
| Headers.EnvelopeTo | src/sbbs3/mailsrvr.c:4723-4736 | The envelope recipient has at most 255 bytes. It is a prefix of the forward path when there is one, and otherwise holds no '>' or space. |
| Headers.DnsblNameReversed | src/sbbs3/mailsrvr.c:1379-1386 | The blacklist query for a.b.c.d is "d.c.b.a." plus the list's name, and is shorter than 256 bytes. |
| Headers.DnsblName | src/sbbs3/mailsrvr.c:1379-1386 | The query name ends in a '.' and the list's name cut to 128 bytes. |
| MailProc.MailCmdStr | src/sbbs3/mailsrvr.c:1527-1633 | The command line built by the loop is the expansion of the template. |
| MailProc.Expand | src/sbbs3/mailsrvr.c:1527-1633 | Not seen by itself: what the expansion is, is stated by ExpandPlain, ExpandLiteral, ExpandSpecifier, UnknownSpecifier and TrailingPercent. |
| MailProc.ExpandPlain | src/sbbs3/mailsrvr.c:1527-1633 | A template without '%' expands to itself. |
| MailProc.ExpandLiteral | src/sbbs3/mailsrvr.c:1527-1633 | Literal text in front of a template is copied in front of its expansion. |
| MailProc.ExpandSpecifier | src/sbbs3/mailsrvr.c:1536-1631 | "%c" in front of a template is replaced by the specifier's value in front of its expansion. |
| MailProc.SpecifierIgnoresCase | src/sbbs3/mailsrvr.c:1536-1631 | A specifier letter means the same in either case. |
| MailProc.PercentPercent | src/sbbs3/mailsrvr.c:1536-1631 | "%%" expands to "%". |
| MailProc.UserNumber | src/sbbs3/mailsrvr.c:1536-1631 | "%u" reads back as the user number. |
| MailProc.UnknownSpecifier | src/sbbs3/mailsrvr.c:1536-1631 | A specifier outside the table expands to nothing. |
| MailProc.TrailingPercent | src/sbbs3/mailsrvr.c:1527-1633 | A '%' that ends the template expands to nothing. |
| MailProc.MatchRecipient | src/sbbs3/mailsrvr.c:3813-3830 | The index is that of the first screened processor whose recipient list names the address, or the count when no processor does. |
| MailProc.RunProcessors | src/sbbs3/mailsrvr.c:2641-2712 | The processors run are those of ChainFrom, and the message is handled exactly when one of them handled it. |
| MailProc.Visit | src/sbbs3/mailsrvr.c:2641-2711 | An applicable processor is run and recorded, and says whether the chain stops. One that does not apply changes nothing. |
| MailProc.ChainOrdered | src/sbbs3/mailsrvr.c:2641-2712 | Only applicable processors run, in increasing order, and none but the last stopped the chain. |
| MailProc.ChainFrom | src/sbbs3/mailsrvr.c:2641-2712 | Not seen by itself: what the chain is, is stated by ChainOrdered and ChainComplete. |
| MailProc.ChainComplete | src/sbbs3/mailsrvr.c:2641-2712 | An applicable processor that did not run comes after a processor that stopped the chain. |
| MailProc.ChainReply | src/sbbs3/mailsrvr.c:2713-2742 | The message is handled exactly when there is an error text, a removed file or a handling processor. Each of its replies then carries a code 100..999. Otherwise there are no replies. |
| MailProc.ErrorReplies | src/sbbs3/mailsrvr.c:2715-2729 | One reply per line of the error file, in order. A line that already starts with a code 100..999 is sent as it is. Any other line gets "554-" in front, or "554 " when it is the last line. |
| MailProc.ReplyCode | src/sbbs3/mailsrvr.c:2719-2724 | Every error-file reply reads as a code 100..999. |
| MailProc.ErrorRepliesCode | src/sbbs3/mailsrvr.c:2715-2729 | Every reply made from the error file carries a code 100..999. |
| MailProc.ErrorRepliesContinue | src/sbbs3/mailsrvr.c:2722-2728 | Lines without a code become "554-" continuation lines, and the last one "554 " when it has none. |
| MailProc.CodedLinePassed | src/sbbs3/mailsrvr.c:2719-2724 | A line that starts with a code 100..999 is passed on unchanged. |
| Codec.QpDecode | src/sbbs3/mailsrvr.c:2124-2157 | Needing n + 3 bytes of buffer, the buffer ends up holding the decoding of the original text, followed by NUL. |
| Codec.QpStep | src/sbbs3/mailsrvr.c:2129-2154 | One pass keeps the write cursor behind the read cursor, leaves the unread input intact and keeps the written text plus the rest's decoding equal to the decoding of the whole. |
| Codec.QpEscape | src/sbbs3/mailsrvr.c:2131-2148 | The same for a pass that reads '=': a closing '=' writes nothing and ends the line. |
| Codec.QpSuffix | src/sbbs3/mailsrvr.c:2129-2154 | A literal byte is copied, "=" at the end is a soft break, "=XY" is the byte XY, '=' with no hex pair is kept with its next byte, and any other byte is dropped. |
| Codec.QpDecodedLength | src/sbbs3/mailsrvr.c:2124-2157 | The decoding is at most two bytes longer than the input. |
| Codec.QpLiteralText | src/sbbs3/mailsrvr.c:2124-2157 | Text made only of literal bytes decodes to itself plus CRLF. |
| Codec.QpDecodeByte | src/sbbs3/mailsrvr.c:2129-2154 | One encoded byte decodes back to that byte, whatever follows. |
| Codec.QpDecodeEncoded | src/sbbs3/mailsrvr.c:2124-2157 | Encoded bytes decode back to those bytes, whatever follows. |
| Codec.QpRoundTrip | src/sbbs3/mailsrvr.c:2124-2157 | Decoding the reference encoding gives the bytes plus CRLF, or the bytes alone with a closing soft break. |
| Codec.QpBadEscapeAndDropped | src/sbbs3/mailsrvr.c:2131-2154 | '=' plus a non-hex byte is kept. A byte that is neither literal nor '=' is dropped. |
| Codec.QpInPlaceOverflowsLineBuffer | src/sbbs3/mailsrvr.c:2124-2157 | Some 1023-byte line, the most the 1024-byte DATA buffer of line 2223 holds, needs 1026 bytes once decoded with its NUL. |
| Codec.QpDecodeFitsWhenLineBounded | src/sbbs3/mailsrvr.c:2124-2157 | A DATA line read with a length of 1022, so at most 1021 bytes, decodes in place with its CRLF and NUL inside the 1024-byte buffer. |
| Codec.SendBody | src/sbbs3/mailsrvr.c:602-625 | The loop sends exactly the lines BodyLines defines for the text and the line limit. |
| Codec.SendOne | src/sbbs3/mailsrvr.c:604-624 | One pass sends the line at the cursor and moves past it, leaving the rest of BodyLines to send. |
| Codec.ScanLine | src/sbbs3/mailsrvr.c:605-608 | The scan ends where LineEnd says: NUL, LF, 998 bytes or the end of the text. |
| Codec.ScanTrim | src/sbbs3/mailsrvr.c:609-610 | The trim ends where TrimAt says, with the char's signedness as given. |
| Codec.SkipEol | src/sbbs3/mailsrvr.c:618-622 | The cursor moves to where Next says: past the line, one CR and one LF. |
| Codec.StuffedLine | src/sbbs3/mailsrvr.c:611-614 | The line built is SentLine: "." when the line starts with one, then the trimmed bytes. |
| Codec.BodyLinesCount | src/sbbs3/mailsrvr.c:602-625 | No more lines are sent than the limit. |
| Codec.PieceShape | src/sbbs3/mailsrvr.c:605-610 | A piece has at most 998 bytes and does not end in a byte of at most ' '. |
| Codec.SentLineIsStuffed | src/sbbs3/mailsrvr.c:611-614 | Each line sent is its piece dot-stuffed, although the source tests the untrimmed text. |
| Codec.BodyLinesShape | src/sbbs3/mailsrvr.c:602-625 | Every line sent is well formed (SentLineOk). |
| Codec.StuffRoundTrip | src/sbbs3/mailsrvr.c:611-614 | Unstuffing undoes stuffing. A stuffed line is never ".", and it starts with '.' exactly when the piece does. |
| Codec.BodyFraming | src/sbbs3/mailsrvr.c:602-625 | Text made of well-formed lines, each ended by CRLF, is sent as those lines dot-stuffed. |
| Codec.BodyFramingRoundTrip | src/sbbs3/mailsrvr.c:602-625 | The same from the start of the text, with the line limit equal to the number of lines. |
| Codec.SignedTrimDropsEightBitTail | src/sbbs3/mailsrvr.c:610 | With signed char, "café" in UTF-8 is sent as "caf". With unsigned char it is sent whole. |
| Codec.CapturePlainUndoesSender | src/sbbs3/mailsrvr.c:3195-3216 | Without an encoding, a dot-stuffed line is captured as the original line plus CRLF. |
| Codec.CaptureQpUndoesSender | src/sbbs3/mailsrvr.c:3195-3216 | With quoted-printable, bytes encoded and dot-stuffed are captured as those bytes plus CRLF. |
| Codec.CaptureBase64 | src/sbbs3/mailsrvr.c:3199-3206 | A line the base64 decoder rejects is captured after "!Base64 decode error: ". Decoded bytes without NUL are captured as they are. |
| Codec.CaptureBodyLine | src/sbbs3/mailsrvr.c:3195-3216 | Without an encoding, the unstuffed line is captured followed by two bytes (CRLF). A decoded line holds no NUL. |
| Codec.ReadLineBounds | src/sbbs3/mailsrvr.c:387-427 | The line read has at most len - 1 bytes and no LF. What is left is a suffix of the input, and something was consumed. |
| Codec.ReadLineRoundTrip | src/sbbs3/mailsrvr.c:387-427 | A short line sent with CRLF is read back exactly, and the rest of the input is left. |
| Codec.ReadLineBareLf | src/sbbs3/mailsrvr.c:387-427 | The same for a line ended by a lone LF. |
| Codec.ReadLineAt | src/sbbs3/mailsrvr.c:387-427 | An LF within the first len - 1 bytes ends the line, which loses a trailing CR. |
| Codec.ReadLine | src/sbbs3/mailsrvr.c:387-427 | Not seen by itself: its bounds are stated by ReadLineBounds. |
| Codec.GetRspSkipsContinuation | src/sbbs3/mailsrvr.c:434-454 | A continuation line "xyz-..." is skipped. |
| Codec.GetRspFinalLine | src/sbbs3/mailsrvr.c:434-454 | A final line is accepted when no reply is expected or when it starts with the expected one, case ignored, and refused otherwise. |
| Codec.GetRspBlankOrClosed | src/sbbs3/mailsrvr.c:434-454 | An empty line, or the end of the input, fails the reply. |
| Codec.GetRspShortLineAfterContinuation | src/sbbs3/mailsrvr.c:434-454 | A two-byte line is judged by the byte the previous line left at index 3: after a continuation it is skipped, and after a final line, with no reply expected, it is the reply. |
| Codec.GetRsp | src/sbbs3/mailsrvr.c:434-454 | An accepted reply is a non-empty line without LF, and it starts with the expected reply, case ignored, when one is given. |
| Auth.CramDigest | src/sbbs3/mailsrvr.c:3439-3450 | The digest is the HMAC-MD5 of RFC 2104 over the challenge, keyed by the 64-byte secret buffer. |
| Auth.XorInto | src/sbbs3/mailsrvr.c:3441-3442 | The first 64 bytes become the secret XOR the pad, and the rest is unchanged. |
| Auth.CopyAt | src/sbbs3/mailsrvr.c:3443-3444 | The bytes are copied after the key block, which is unchanged. |
| Auth.ShortKeyIsRfcKey | src/sbbs3/mailsrvr.c:3439-3440 | A password of at most 63 bytes without NUL is the key itself. |
| Auth.LongKeyCut | src/sbbs3/mailsrvr.c:3439-3440 | For a 64-byte password, the key block used ends in 0 where the RFC 2104 key ends in the password's last byte. |
| Auth.CramSplit | src/sbbs3/mailsrvr.c:3407-3419 | The response is held in the 128-byte buffer of line 2252, so the user name and the digest text have at most 127 bytes each. |
| Auth.CramRoundTrip | src/sbbs3/mailsrvr.c:3407-3451 | The server recovers the user the client (lines 4668-4680) sends, when user, space and digest fit in 127 bytes. It accepts the digest when the password is in lower case. |
| Auth.CramLongUserRefused | src/sbbs3/mailsrvr.c:3407-3451 | A user name of 95 bytes or more leaves no room in the buffer for a 32-digit digest, so the response is refused. |
| Auth.ApopSplit | src/sbbs3/mailsrvr.c:889-897 | The user name has at most 127 bytes. |
| Auth.ApopRoundTrip | src/sbbs3/mailsrvr.c:889-936 | "user digest" splits into user and digest, and is accepted exactly when the digest is the MD5 of the challenge and the lower-case password. |
| Auth.PlainFields | src/sbbs3/mailsrvr.c:3329-3343 | The walk along the 128-byte buffer of line 2218 computes PlainSplit. |
| Auth.SkipField | src/sbbs3/mailsrvr.c:3331-3338 | The loop stops at the first NUL from the index, inside the buffer. |
| Auth.PlainSplit | src/sbbs3/mailsrvr.c:3317-3343 | A login has a non-empty user and password, neither holding NUL. |
| Auth.PlainRoundTrip | src/sbbs3/mailsrvr.c:3317-3343 | An RFC 4616 message "authzid NUL authcid NUL passwd" gives the authcid and the password. |
| Auth.PlainSplitAgrees | src/sbbs3/mailsrvr.c:3329-3343 | Wherever the walk as written succeeds, the checked split agrees with it. |
| Auth.PlainReadsPastBuffer | src/sbbs3/mailsrvr.c:3329-3342 | NUL then 126 bytes 'u' leaves the walk as written with a password one byte past the buffer. |
| Auth.PlainAsWritten | src/sbbs3/mailsrvr.c:3329-3342 | As written (see ## Findings): the walk to the NUL after each field with no bound. The cases that read `tmp[128]` are None. PlainReadsPastBuffer shows one, and PlainSplitAgrees shows it equals PlainSplit wherever it stays inside the buffer. |
| Smtp.Inc16 | src/sbbs3/mailsrvr.c:3985 | rcpt_count stays below 65536: it goes up by one, or wraps from 65535 to 0. |
| Smtp.VerbOf | src/sbbs3/mailsrvr.c:3262-4054 | A MAIL-type command has at least 10 bytes, HELO and EHLO at least 4, and RCPT at least 8: the argument offsets the source uses are inside the line. |
| Smtp.Admitted | src/sbbs3/mailsrvr.c:3489-3492 | Not seen by itself: a predicate. Before HELO only HELO, EHLO, AUTH, QUIT and NOOP are admitted, RCPT needs MAIL (line 3596) and DATA needs a RCPT (line 4015). |
| Smtp.VerbIgnoresCase | src/sbbs3/mailsrvr.c:3262-4054 | Upper-casing a line does not change its command. |
| Smtp.MailFromLine | src/sbbs3/mailsrvr.c:3527-3531 | "MAIL FROM:" followed by anything is the MAIL command. |
| Smtp.RcptLine | src/sbbs3/mailsrvr.c:3594 | "RCPT TO:" followed by anything is the RCPT command. |
| Smtp.EhloReply | src/sbbs3/mailsrvr.c:3279-3285 | Seven lines, from "250-" and the host name to "250 SIZE" and the limit, with the AUTH mechanisms second. |
| Smtp.EhloMultiline | src/sbbs3/mailsrvr.c:3279-3285 | Every line but the last starts "250-", and the last starts "250 ". |
| Smtp.UShort | src/sbbs3/mailsrvr.c:3736 | A value stored in a u_short is below 65536 and unchanged when it fits. |
| Smtp.DestPort | src/sbbs3/mailsrvr.c:3731-3737 | An explicit port is below 65536. |
| Smtp.DestHost | src/sbbs3/mailsrvr.c:3731-3737 | The host is the text before the last ':', or all of it. |
| Smtp.DestOf | src/sbbs3/mailsrvr.c:3731-3737 | "h:n" gives host h and port n. |
| Smtp.LocalDestPort | src/sbbs3/mailsrvr.c:3739-3743 | "h:n" is local exactly when h is this system (by name, address, resolution or domain list) and n is the server's port. |
| Smtp.LocalDest | src/sbbs3/mailsrvr.c:3739-3743 | Not seen by itself: a predicate, stated by LocalDestPort. Corrected (see ## Findings): it compares an explicit port in host order. |
| Smtp.StoredPort | src/sbbs3/mailsrvr.c:2352-2353 | The port as sin_port holds it is below 65536. |
| Smtp.ExplicitPortMisread | src/sbbs3/mailsrvr.c:3731-3743 | As written, on a little-endian server on port 25, "h:25" is taken as remote and "h:6400" as local. |
| Smtp.LocalDestAsWritten | src/sbbs3/mailsrvr.c:3731-3743 | As written (see ## Findings): the host is this system and the port parsed in host order equals `sin_port` in network order, or the stored port when there is no ':'. NoPortAgrees shows it equals LocalDest without a port, and ExplicitPortMisread shows where it differs. |
| Smtp.NoPortAgrees | src/sbbs3/mailsrvr.c:3731-3743 | Without an explicit port the port test as written agrees with LocalDest. |
| Smtp.RcptToText | src/sbbs3/mailsrvr.c:3602-3604 | The recipient text has at most 127 bytes. |
| Smtp.Limits | src/sbbs3/mailsrvr.c:3636-3669 | Too many recipients is refused. An accepted recipient is under the limit, and under the relaying user's daily limit unless they are exempt. |
| Smtp.RelayPermitted | src/sbbs3/mailsrvr.c:3744-3760 | Not seen by itself: a predicate. Relaying is allowed by a forcing alias, by relay.cfg, or when relaying is on and the relay user, found by IP if need be, is known and not G- or M-restricted. |
| Smtp.RcptDecision | src/sbbs3/mailsrvr.c:3594-4012 | Before MAIL the reply is 503. An empty address and too many recipients are refused. A recipient passing those checks is taken as spam bait exactly when it is a spam-bait address. A drop is a blacklisted unknown sender or a denied relay. A relayed recipient has a remote target, and a local one is the user who accepts it. Corrected (see ## Findings): the remote target is judged by LocalDest. |
| Smtp.Route | src/sbbs3/mailsrvr.c:3723-3791 | A drop is a MAIL relay that is not permitted. A relayed recipient is a permitted MAIL to a remote target. A local recipient is the user who accepts it. Corrected (see ## Findings): the remote target is judged by LocalDest. |
| Smtp.RelayReachedDecides | src/sbbs3/mailsrvr.c:3723-3791 | In the relay branch, the recipient is relayed for the Internet exactly when relaying is permitted, and dropped otherwise. |
| Smtp.RelayReached | src/sbbs3/mailsrvr.c:3723-3752 | Not seen by itself: a RCPT TO: that passes the argument, limit, spam-bait, IP and DNSBL checks in MAIL mode and names a destination that is not local reaches the relay branch. RelayReachedDecides and Session.Recipient state what happens there. |
| Smtp.Routing | src/sbbs3/mailsrvr.c:3796-3803 | A route is found exactly when the address holds '!': the QWK user's name, cut to 127 bytes, and a part without '!'. |
| Smtp.Local | src/sbbs3/mailsrvr.c:3792-3888 | A local recipient is the user who accepts it, or a non-Internet route. A telegram needs a non-MAIL command, and the processor match is recorded. |
| Smtp.Deliver | src/sbbs3/mailsrvr.c:3890-4011 | An accepted user is recorded by number, and is a telegram exactly for SEND, SOML and SAML. Forwarding to the user's netmail address happens only for a plain MAIL. |
| Smtp.Mark | src/sbbs3/mailsrvr.c:3826 | Only the matched processor's flag is set, and the others keep theirs. |
| Smtp.FromAsWritten | src/sbbs3/mailsrvr.c:3557-3580 | As written, MAIL FROM: takes the new command but keeps the telegram flag. |
| Smtp.UserAdded | src/sbbs3/mailsrvr.c:3982-3983 | An accepted local user sets the telegram flag unless the command is MAIL. |
| Smtp.MailAfterSendStaysTelegram | src/sbbs3/mailsrvr.c:3557-3983 | As written, SEND FROM:, a local RCPT and then MAIL FROM: leave a MAIL transaction flagged as a telegram, so DATA skips the header. |
| Smtp.DataState | src/sbbs3/mailsrvr.c:4045-4048 | DATA enters the header state exactly when the transaction is not a telegram. |
| Smtp.SenderAddr | src/sbbs3/mailsrvr.c:4032-4038 | The sender address holds no '<' or '>' and has at most 127 bytes. |
| Smtp.SenderNameParts | src/sbbs3/mailsrvr.c:4040-4042 | The sender name is the address up to its '@', and empty without one. |
| Smtp.SenderAddrOf | src/sbbs3/mailsrvr.c:4032-4038 | "<a>" gives a. |
| Smtp.SenderOf | src/sbbs3/mailsrvr.c:4031-4042 | "<user@host>" gives the address user@host and the name user. |
| Smtp.HeaderLine | src/sbbs3/mailsrvr.c:3229-3258 | A header line is kept with CRLF or dropped, and only a dropped line selects a decoder. The encoding changes only on a line with a field. |
| Smtp.FromHeader | src/sbbs3/mailsrvr.c:3232-3236 | The sender name and address taken from From: have at most 127 bytes each. |
| Smtp.FromHeaderOf | src/sbbs3/mailsrvr.c:3232-3236 | A From: line gives the parsed name and address, and is kept in the text. |
| Smtp.EncodingSelected | src/sbbs3/mailsrvr.c:3238-3243 | Content-Transfer-Encoding base64 or quoted-printable, case ignored, is dropped from the text and selects that decoder. |
| Smtp.OtherEncodingKept | src/sbbs3/mailsrvr.c:3238-3250 | Any other encoding is kept in the text and leaves the body undecoded. |
| Smtp.LoginCheck | src/sbbs3/mailsrvr.c:3346-3377 | A login succeeds exactly when the name matches a user whose record is readable, not deleted or inactive, and whose password equals the one given, case ignored. It then gives that user's number. It never answers a bad argument. |
| Smtp.LoginIgnoresPasswordCase | src/sbbs3/mailsrvr.c:3368 | A password given in upper case is judged like the password itself. |
| Smtp.Decoded | src/sbbs3/mailsrvr.c:3302-3326 | A base64 answer is taken only when the decoder neither fails nor gives nothing. |
| Smtp.Field | src/sbbs3/mailsrvr.c:3302-3315 | A decoded name or password, as its 128-byte buffer holds it, has at most 127 bytes and no NUL. |
| Smtp.PlainCredentials | src/sbbs3/mailsrvr.c:3317-3344 | The argument after "AUTH PLAIN" and its white-space gives credentials exactly when it is non-empty, decodes and splits into a user and a password. These are then PlainSplit's. |
| Smtp.LoginAnswer | src/sbbs3/mailsrvr.c:3296-3316 | An answer is taken exactly when it arrives, is non-empty and decodes. It is then held as Field gives. |
| Smtp.LoginExchange | src/sbbs3/mailsrvr.c:3292-3316 | AUTH LOGIN prompts for the user name and, once one is read, for the password. A missing or undecodable answer is a bad argument. Two answers are judged by LoginCheck. |
| Smtp.CramCheck | src/sbbs3/mailsrvr.c:3415-3463 | A CRAM-MD5 response succeeds exactly when the user before its last space is a readable, active user and the digest matches that user's password. |
| Smtp.CramExchange | src/sbbs3/mailsrvr.c:3391-3411 | The server sends "334 " and the encoded challenge. A missing or undecodable answer is a bad argument, and any other is judged by CramCheck. |
| Smtp.AuthExchange | src/sbbs3/mailsrvr.c:3292-3475 | The last reply is 501, 535 or 235 as the exchange ends. PLAIN answers once, a bad argument exactly when there are no credentials, and otherwise as LoginCheck. LOGIN and CRAM-MD5 answer as their exchanges. |
| Smtp.PlainAuthOf | src/sbbs3/mailsrvr.c:3317-3377 | "AUTH PLAIN" with an RFC 4616 message gives its user and password, and the login succeeds exactly when LoginCheck accepts them. |
| Smtp.CramAuthOf | src/sbbs3/mailsrvr.c:3391-3463 | The response the delivery thread sends (lines 4668-4680) logs an active user in with CRAM-MD5, when the password is the account's in lower case and the response fits the buffer. |
| SmtpSession.NoMatches | src/sbbs3/mailsrvr.c:3577 | One clear flag per processor. |
| SmtpSession.QuitBeforeNul | src/sbbs3/mailsrvr.c:370-430 | "QUIT", a NUL and any bytes after it is read as QUIT. `sockreadline` stores the NUL, and the command tests see only the C string before it. |
| SmtpSession.AppliedKeepsInv | src/sbbs3/mailsrvr.c:3594-4012 | A decision that refuses outside a transaction, and adds no telegram recipient to a MAIL transaction, keeps the session invariant: the 16-bit count, one match flag per processor, a transaction open exactly from MAIL FROM: to the end of DATA, and no MAIL telegram. |
| SmtpSession.RcptKeepsInv | src/sbbs3/mailsrvr.c:3594-4012 | RCPT TO: keeps the session invariant for every argument and every fact. It proves that outside a transaction the decision is a refusal. |
| SmtpSession.EffectKeepsInv | src/sbbs3/mailsrvr.c:3262-4059 | Every admitted command keeps the session invariant. |
| SmtpSession.LineKeepsInv | src/sbbs3/mailsrvr.c:2535-2630 | Every line of the message keeps the session invariant, and a line other than "." leaves the session in DATA. |
| SmtpSession.DataKeepsEnvelope | src/sbbs3/mailsrvr.c:2535-2630 | A line of the message leaves the envelope as it was: the recipients, their count, the reverse path, the match flags, the sub-board, the bad-command count, the hello name, ESMTP and the relay user. |
| SmtpSession.HelloKeepsRecipients | src/sbbs3/mailsrvr.c:3262-3290 | HELO and EHLO close the transaction but keep the recipients, their count, the reverse path, the text and the relay user. |
| SmtpSession.RcptAppends | src/sbbs3/mailsrvr.c:3594-4012 | RCPT TO: only appends. The old list is a prefix of the new one, which is at most one longer. The count stays or grows by one as a 16-bit count. The command, the reverse path and the text stay. |
| SmtpSession.ResetTwice | src/sbbs3/mailsrvr.c:3500-3525 | RSET twice leaves the same variables as RSET once. |
| SmtpSession.DotEndsTransaction | src/sbbs3/mailsrvr.c:2536-2630 | "." always closes the transaction and keeps the text. The telegram flag stays set exactly when the message was not delivered. |
| SmtpSession.Session.constructor | src/sbbs3/mailsrvr.c:2399 | A new session is in the initial state with no transaction, no recipients, no telegram and no relay user. All its variables are given, and its hello name is the client's host name. |
| SmtpSession.Session.Command | src/sbbs3/mailsrvr.c:3262-4059 | The line is cut at its first NUL and trimmed at its end, as the C string is. The replies, whether the session closes, and every session variable afterwards are those of Step, which the session invariant survives. In DATA the line is a line of the message and never closes. A command the state does not admit gets 503 and changes nothing. |
| SmtpSession.Session.Execute | src/sbbs3/mailsrvr.c:3262-4059 | For each admitted verb, the replies, the close and every session variable afterwards are those of Effect. HELO and EHLO set the hello name and drop the transaction. RSET empties it. A FROM: form opens one, or closes on a refused sender. RCPT applies the decision. DATA starts the text. AUTH closes exactly on a refusal and keeps the user who logs in. QUIT closes. NOOP and TURN clear the bad-command count. An unknown line is one more bad command. |
| SmtpSession.Session.HeloCommand | src/sbbs3/mailsrvr.c:3262-3290 | HELO answers "250 host" and EHLO its extension list. The whole new session is Greeted's: the hello name, ESMTP, no transaction, no telegram, no sub-board, and nothing else changed. |
| SmtpSession.Session.RsetCommand | src/sbbs3/mailsrvr.c:3500-3525 | The reply is 250 OK. The new session is Emptied's: no transaction, path, recipients, count, encoding, match flags, telegram or bad commands, and nothing else changed. |
| SmtpSession.Session.DataCommand | src/sbbs3/mailsrvr.c:4014-4052 | The reply is 354. The new session is DataStarted's: empty text, the sender from the reverse path, the header skipped for a telegram, and nothing else changed. |
| SmtpSession.Session.RcptCommand | src/sbbs3/mailsrvr.c:3594-4012 | The reply, the close and the whole new session are Addressed's for the argument after "RCPT TO:". |
| SmtpSession.Session.Other | src/sbbs3/mailsrvr.c:3292-3498 | AUTH answers as AuthExchange, closes exactly on a refusal and makes the user who logs in the relay user. QUIT replies and closes. NOOP and TURN reply and clear the bad-command count. An unknown command is one more bad command (lines 4053-4059). Only the bad-command count and the relay user change. |
| SmtpSession.Session.Hello | src/sbbs3/mailsrvr.c:3262-3290 | The hello name is set, the transaction and the telegram flag are dropped, and the reply is "250 host" or the EHLO list. |
| SmtpSession.Session.Reset | src/sbbs3/mailsrvr.c:3500-3525 | RSET drops the transaction, the path, the recipients, the match flags and the telegram flag. |
| SmtpSession.Session.From | src/sbbs3/mailsrvr.c:3527-3581 | A sender not allowed, while nobody has authenticated, is refused with 554, the session closes and nothing changes. Otherwise the new session is Opened's, with the reverse path. Corrected (see ## Findings): the telegram flag is cleared. |
| SmtpSession.Session.Open | src/sbbs3/mailsrvr.c:3567-3580 | The variables are exactly those of a new transaction. |
| SmtpSession.Session.Recipient | src/sbbs3/mailsrvr.c:3594-4012 | The decision is taken with the session's relay user. The reply is the decision's, and the session closes exactly on a drop. The whole new session is Recipiented's: the decision applied and, in the relay branch, the relay user the IP look-up finds (lines 3746-3752). Corrected (see ## Findings): the remote target is judged by LocalDest. |
| SmtpSession.Session.Apply | src/sbbs3/mailsrvr.c:3594-4012 | The whole new session is Applied's for the decision, with the given relay user. |
| SmtpSession.Session.Record | src/sbbs3/mailsrvr.c:3594-4012 | A recorded recipient is appended and counted. A "sub:" recipient is counted and names the sub-board. A spam-bait address moves to RCPT. A refused or dropped one changes nothing. |
| SmtpSession.Session.Data | src/sbbs3/mailsrvr.c:4014-4052 | The text starts empty, the state is DataState's, and the sender comes from the reverse path. |
| SmtpSession.Session.BadCommand | src/sbbs3/mailsrvr.c:4053-4059 | One more bad command, and the session closes after the tenth. |
| SmtpSession.Session.DataLine | src/sbbs3/mailsrvr.c:2535-2630 | The replies and the whole new session are LineEffect's: "." ends the message, and any other line is captured as Capture says (lines 3186-3258). The session invariant is kept. |
| SmtpSession.Session.Capture | src/sbbs3/mailsrvr.c:3186-3258 | The whole new session is Captured's. The empty line that ends the header and every body line are body text, and any other line is a header line. |
| SmtpSession.Session.BodyText | src/sbbs3/mailsrvr.c:3186-3221 | The whole new session is Bodied's. The empty header line adds a blank line and starts the body, and a body line adds its un-stuffed, decoded text. |
| SmtpSession.Session.Header | src/sbbs3/mailsrvr.c:3223-3258 | The whole new session is Headed's. |
| SmtpSession.Session.HeaderText | src/sbbs3/mailsrvr.c:3223-3258 | The text and the encoding change as HeaderLine says. From: sets the sender, and other lines leave it. |
| SmtpSession.Session.EndData | src/sbbs3/mailsrvr.c:2536-2630 | The transaction closes first. The replies are EndReplies': 554 No message text without text, nothing to a sender that has disconnected, 554 Sender not allowed to a twit-listed sender, and 250 OK to a telegram. A delivered telegram clears its flag, and the flag survives every refusal. |
| Pop3.ToULong | src/sbbs3/mailsrvr.c:1166-1174 | A long stored in a ulong is kept when it fits and wraps by 2^64 when negative. |
| Pop3.Arg | src/sbbs3/mailsrvr.c:1167-1168 | The argument does not start with white-space. |
| Pop3.VerbOf | src/sbbs3/mailsrvr.c:1028-1326 | Not seen by itself: the commands are matched in the source's order, and Transaction.Command states what each does. |
| Pop3.SkipDigits | src/sbbs3/mailsrvr.c:1172 | The leading digits and the result make up the text, and the result does not start with a digit. |
| Pop3.Listing | src/sbbs3/mailsrvr.c:1127-1153 | The full listing has at most one line per message. |
| Pop3.LinesArg | src/sbbs3/mailsrvr.c:1166-1175 | The line limit fits a ulong. |
| Pop3.Capped | src/sbbs3/mailsrvr.c:1224-1226 | The limit is kept, or becomes "all lines" exactly when it already was, or when it is positive and at least the text's length. |
| Pop3.RetrPlan | src/sbbs3/mailsrvr.c:1162-1231 | A message sent is in the snapshot and not deleted. |
| Pop3.PlanFor | src/sbbs3/mailsrvr.c:1176-1231 | The same for a given number and limit. |
| Pop3.MarkDeleted | src/sbbs3/mailsrvr.c:1271-1323 | DELE sets the delete bit of message i, and no other bit of it or of any other message changes. |
| Pop3.MarkRead | src/sbbs3/mailsrvr.c:1236-1262 | The read bit and the sent net bit of message i are set, and no other bit or message changes. |
| Pop3.Restored | src/sbbs3/mailsrvr.c:1040-1078 | One entry per message. |
| Pop3.EntryNumber | src/sbbs3/mailsrvr.c:1146-1153 | The listing line of message k reads as k + 1. |
| Pop3.EntryInjective | src/sbbs3/mailsrvr.c:1146-1153 | Different messages give different listing lines. |
| Pop3.ListingExactly | src/sbbs3/mailsrvr.c:1127-1153 | A message is listed exactly when it is among the first n and not deleted. |
| Pop3.ResetUndoesDelete | src/sbbs3/mailsrvr.c:1040-1078 | RSET after DELE gives what RSET alone gives. |
| Pop3.DeletedRefused | src/sbbs3/mailsrvr.c:1079-1323 | After DELE the message is refused by LIST n, UIDL n, RETR and TOP, and missing from the full listing. |
| Pop3.OutOfRange | src/sbbs3/mailsrvr.c:1176-1181 | A number outside 1..msgs is no such message for LIST, UIDL, RETR and TOP. |
| Pop3.TopArguments | src/sbbs3/mailsrvr.c:1162-1226 | "TOP n k" sends message n with k lines, or all of it when k is positive and at least its length. |
| Pop3.RetrWhole | src/sbbs3/mailsrvr.c:1162-1262 | RETR sends all lines, and its transfer always marks the message. |
| Pop3.Transaction.constructor | src/sbbs3/mailsrvr.c:987-1011 | The byte total is that of the whole snapshot. |
| Pop3.Transaction.Command | src/sbbs3/mailsrvr.c:1021-1331 | The line is cut at its first NUL and trimmed at its end, as the C string is. QUIT closes, NOOP and STAT change nothing, RSET restores, LIST and UIDL reply with their listing, RETR and TOP transfer as planned, DELE removes, and others are unsupported. |
| Pop3.QuitBeforeNul | src/sbbs3/mailsrvr.c:370-430 | "QUIT", a NUL and any bytes after it is read as QUIT, since `sockreadline` stores the NUL and the command tests see only the C string before it. |
| Pop3.Transaction.Reset | src/sbbs3/mailsrvr.c:1040-1078 | The attributes become Restored's. |
| Pop3.Transaction.ListCmd | src/sbbs3/mailsrvr.c:1079-1158 | The replies are ListReplies'. |
| Pop3.Transaction.Retrieve | src/sbbs3/mailsrvr.c:1160-1270 | The reply, the transfer and the attributes are those Retrieved gives. |
| Pop3.Transaction.MarkOne | src/sbbs3/mailsrvr.c:1236-1262 | The attributes become MarkRead's. |
| Pop3.Transaction.Delete | src/sbbs3/mailsrvr.c:1271-1323 | The reply and the attributes are those Removed gives. |
| Delivery.Claimed | src/sbbs3/mailsrvr.c:4401 | The in-transit bit is set and nothing else changes. |
| Delivery.Released | src/sbbs3/mailsrvr.c:4205-4223 | The in-transit bit is cleared and nothing else changes. |
| Delivery.Sent | src/sbbs3/mailsrvr.c:4769-4775 | The delete bit is set and the in-transit bit cleared. |
| Delivery.ClaimExcludes | src/sbbs3/mailsrvr.c:4390-4401 | A claimed message is not eligible. Released, it is the same header and eligible again. |
| Delivery.SentNotResent | src/sbbs3/mailsrvr.c:4390-4400 | A sent message is never eligible. |
| Delivery.Eligible | src/sbbs3/mailsrvr.c:4385-4400 | Not seen by itself: a predicate, stated by ClaimExcludes and SentNotResent. |
| Delivery.Bounced | src/sbbs3/mailsrvr.c:4101-4130 | The attempt count goes up by one as a u_short. The delete bit is set exactly when it was or the message is given up. |
| Delivery.NoticeSubject | src/sbbs3/mailsrvr.c:4147 | The subject is "Delivery failure: " followed by the original subject, cut to 127 bytes in all. |
| Delivery.NoticeText | src/sbbs3/mailsrvr.c:4171-4185 | Five comment lines, "Reason:" and then the error among them. |
| Delivery.NoticeFor | src/sbbs3/mailsrvr.c:4142-4189 | Back to the sender, from the system agent, with MSG_NOREPLY and no attempts. It names a recipient agent exactly when the sender is not a person. |
| Delivery.BounceNotice | src/sbbs3/mailsrvr.c:4116-4140 | A notice exactly when the message is given up and the message is not itself one that cannot be answered. |
| Delivery.NoticeNotAnswered | src/sbbs3/mailsrvr.c:4132-4189 | A notice's own failure is never answered with another notice. |
| Delivery.Unanswerable | src/sbbs3/mailsrvr.c:4132-4138 | Not seen by itself: a predicate, used by BounceNotice and NoticeNotAnswered. |
| Delivery.RetriedUntilMax | src/sbbs3/mailsrvr.c:4101-4130 | After k temporary failures a fresh message is deleted exactly when k reaches the limit. |
| Delivery.AfterAttempt | src/sbbs3/mailsrvr.c:4598-4775 | The attempt count stays a u_short. Corrected (see ## Findings): every ending releases the claim, also a refusal during relay authentication. |
| Delivery.Expected | src/sbbs3/mailsrvr.c:4609-4761 | Every expected reply starts with a 2 or a 3, and with a 3 exactly for the two AUTH prompts and DATA. |
| Delivery.BounceOf | src/sbbs3/mailsrvr.c:4598-4775 | No bounce after a delivery, no text, no DNS server or no socket. Only a bad address or a 5xx refusal bounces at once. |
| Delivery.RcptRefusalText | src/sbbs3/mailsrvr.c:4736-4740 | A refused recipient is reported with the server, its reply and the expected reply "25* ..." in the format of lines 79-80, and bounces at once exactly when the reply starts with 5. |
| Delivery.BadReply | src/sbbs3/mailsrvr.c:79-80 | Not seen by itself: the reason text of a refused reply names the server, the reply and the expected reply followed by " ...". RcptRefusalText states it for RCPT TO:. |
| Delivery.ReleasedAfterAttempt | src/sbbs3/mailsrvr.c:4598-4775 | Every attempt clears the in-transit bit, so a message that was eligible and is not deleted is eligible again. |
| Delivery.AuthRefusalStaysClaimed | src/sbbs3/mailsrvr.c:4646-4712 | As written, a temporary AUTH refusal leaves a fresh message undeleted, in transit and never eligible again. |
| Delivery.AfterAttemptAsWritten | src/sbbs3/mailsrvr.c:4646-4712 | As written (see ## Findings): a refusal during relay authentication bounces without releasing the claim, and every other ending is AfterAttempt's. AuthRefusalStaysClaimed shows the message that stays in transit. |
| Delivery.RouteOf | src/sbbs3/mailsrvr.c:4440-4505 | The destination is bad exactly when the address, cut at '>' or space, holds no '@'. |
| Delivery.PortOr25 | src/sbbs3/mailsrvr.c:4972-4974 | A port of 0 stands for 25, and any other port is kept. |
| Delivery.RouteExplicitPort | src/sbbs3/mailsrvr.c:4440-4505 | "user@host:n" goes straight to host at port n when host:n is not this system and no relay is set. |
| Delivery.Candidates | src/sbbs3/mailsrvr.c:4542-4550 | The primary first, then the secondary exactly when there is one and no relay is used. |
| Delivery.TryOne | src/sbbs3/mailsrvr.c:4552-4596 | A refusal is a server not failed before, with its error code. A connection is a resolved server not failed before that accepts. |
| Delivery.TryFrom | src/sbbs3/mailsrvr.c:4542-4597 | The server connected to is one of the candidates tried, and the failed list only grows. |
| Delivery.FailedNotRetried | src/sbbs3/mailsrvr.c:4542-4597 | The server connected to had not failed before. The failed list gains only refused servers with their codes, and keeps the old ones. |
| Delivery.SecondaryAfterPrimary | src/sbbs3/mailsrvr.c:4542-4597 | The secondary is connected to only when the primary gave no connection. |
| Delivery.Targets | src/sbbs3/mailsrvr.c:4440-4541 | A route that connects has one or two candidate servers. |
| Delivery.AttemptOf | src/sbbs3/mailsrvr.c:4424-4775 | The failed list only grows, and a delivery needs a good destination and a message text. |
| Delivery.Sender.NewPass | src/sbbs3/mailsrvr.c:4314 | The failed list is empty. |
| Delivery.Sender.Connect | src/sbbs3/mailsrvr.c:4542-4597 | The loop ends as TryFrom says: success, the server, the error and the new failed list. |
| Delivery.Sender.Send | src/sbbs3/mailsrvr.c:4390-4775 | A message not eligible is left alone. An eligible one ends as AfterAttempt gives for its claimed header, with the failed list after the attempt. Corrected (see ## Findings): the claim is released after every ending. |
| Delivery.Queued.Claim | src/sbbs3/mailsrvr.c:4401 | The header becomes Claimed's. |
| Delivery.Queued.Release | src/sbbs3/mailsrvr.c:4205-4223 | The header becomes Released's. |
| Delivery.Queued.Bounce | src/sbbs3/mailsrvr.c:4093-4203 | The header becomes Bounced's, and the notice is BounceNotice's. |
| Delivery.Queued.Finish | src/sbbs3/mailsrvr.c:4598-4775 | The header becomes AfterAttempt's, with the notice of the bounce that ending calls for. Corrected (see ## Findings): the claim is released after a refusal during relay authentication too. |
| Editor.Step | src/sbbs3/writemsg.cpp:113-145 | The filter stops exactly at NUL, at the line limit, or at a kludge line with no line feed. The lines counted are the line feeds written and stay within the limit. No Ctrl-A is written when kludges are stripped. |
| Editor.StepExpandsLf | src/sbbs3/writemsg.cpp:114-126 | With LF expansion, a step writes no bare line feed. |
| Editor.ProcessEditedText | src/sbbs3/writemsg.cpp:108-152 | The text, line count, buffer and full flag are those Edit gives. |
| Editor.FilterOnce | src/sbbs3/writemsg.cpp:113-145 | One pass does what Step says, or stops at the buffer's end inside a kludge line. |
| Editor.StepLineBreak | src/sbbs3/writemsg.cpp:114-126 | A soft CR, or a bare LF with expansion, becomes CR-LF and counts one line. |
| Editor.StepKludge | src/sbbs3/writemsg.cpp:128-135 | A Ctrl-A line is passed over up to its line feed, and stops the filter without one. |
| Editor.StepCopy | src/sbbs3/writemsg.cpp:136-144 | Any other byte is copied, an LF counts a line, and a tear line gets its '+'. |
| Editor.SkipKludge | src/sbbs3/writemsg.cpp:130-131 | The loop stops at the first LF or NUL, or at the buffer's end. |
| Editor.EditCounts | src/sbbs3/writemsg.cpp:113-145 | The line count is the number of line feeds written, and never passes the limit. |
| Editor.EditTransparent | src/sbbs3/writemsg.cpp:108-152 | Text the options leave alone, with fewer line feeds than the limit, is written as it is. |
| Editor.EditStripsKludges | src/sbbs3/writemsg.cpp:128-135 | With kludge stripping no Ctrl-A is written. |
| Editor.EditExpandsLf | src/sbbs3/writemsg.cpp:114-126 | With LF expansion every line feed written follows a CR. |
| Editor.EditGuardsTearLine | src/sbbs3/writemsg.cpp:136-144 | A tear line is written starting "-+". |
| Editor.RemoveLine | src/sbbs3/writemsg.cpp:669-687 | The result is Removed's. |
| Editor.SkipGroup | src/sbbs3/writemsg.cpp:675-680 | The loop passes a group of num lines. |
| Editor.CopyGroup | src/sbbs3/writemsg.cpp:681-686 | The loop copies a group of num lines, within the buffer. |
| Editor.CopyLine | src/sbbs3/writemsg.cpp:683-685 | One line is copied, with its line feed when it has one. |
| Editor.RemoveKeepsUnmatched | src/sbbs3/writemsg.cpp:669-687 | When no line after the skipped ones starts with the text, the file is unchanged. |
| Editor.RemoveAllMatching | src/sbbs3/writemsg.cpp:669-687 | An empty text starts every line, so nothing after the skipped lines is kept. |
| Editor.RemoveLineOverrun | src/sbbs3/writemsg.cpp:684 | As written, removing "b" from "a" gives "a" plus the byte past the buffer. Removed gives "a". |
| Editor.KeptAsWritten | src/sbbs3/writemsg.cpp:681-686 | As written (see ## Findings): the copy loop after the skipped lines, which for a group that runs past the end also writes the byte beyond the buffer. RemoveLineOverrun shows it. |
| Editor.RemovedAsWritten | src/sbbs3/writemsg.cpp:669-686 | As written (see ## Findings): the skipped lines and then KeptAsWritten. RemoveLineOverrun shows the one-byte overrun beside Removed's result. |
| Editor.LineFrom | src/sbbs3/writemsg.cpp:725-746 | An imported line is an editor line, and a line that is not full moves on. |
| Editor.ReadLine | src/sbbs3/writemsg.cpp:725-746 | The column loop computes LineFrom. |
| Editor.Imported | src/sbbs3/writemsg.cpp:713-749 | At most maxlines lines, each an editor line. |
| Editor.ImportLines | src/sbbs3/writemsg.cpp:713-749 | The array holds Imported's lines. |
| Editor.LineEditor.constructor | src/sbbs3/writemsg.cpp:713-749 | The editor holds Imported's lines, with the cursor after the last. |
| Editor.LineBack | src/sbbs3/writemsg.cpp:725-746 | A line without CR or tab, followed by CR-LF, is read back as it is. |
| Editor.Saved | src/sbbs3/writemsg.cpp:974-979 | The saved text starts with what came before. |
| Editor.ImportSaved | src/sbbs3/writemsg.cpp:713-979 | Saving lines and importing them again gives the same lines. |
| Editor.ImportedSaved | src/sbbs3/writemsg.cpp:713-979 | The editor's lines are read back from the saved body. |
| Editor.Target | src/sbbs3/writemsg.cpp:824-849 | Line n names index n - 1, 0 names the last line, and a number out of range names none. |
| Editor.Without | src/sbbs3/writemsg.cpp:830-834 | The lines without line j, the rest in order. |
| Editor.Opened | src/sbbs3/writemsg.cpp:851-856 | The lines with an empty line at j, the rest in order. |
| Editor.DeleteUndoesInsert | src/sbbs3/writemsg.cpp:819-865 | /D undoes /I. |
| Editor.DeleteRemovesOne | src/sbbs3/writemsg.cpp:819-840 | /D removes one line and nothing else. |
| Editor.AfterDelete | src/sbbs3/writemsg.cpp:819-840 | The line number is valid exactly when there are no lines or it names one. With none or an invalid number nothing changes. |
| Editor.LineEditor.Delete | src/sbbs3/writemsg.cpp:819-840 | The lines, the cursor and the reply are AfterDelete's. |
| Editor.AfterInsert | src/sbbs3/writemsg.cpp:841-865 | The reply is valid exactly when the message is full, empty or the number names a line. The lines never pass the limit unless nothing changed. |
| Editor.LineEditor.Insert | src/sbbs3/writemsg.cpp:841-865 | The lines, the cursor and the reply are AfterInsert's. |
| Editor.AfterEnter | src/sbbs3/writemsg.cpp:954-966 | The entered line replaces the one at the cursor or is added, and at the limit the lines are unchanged. The cursor moves on, and the up arrow moves it back to the line before, or two lines back from the limit. It agrees with the index as written wherever that is not negative. Corrected (see ## Findings): it never goes below the first line. |
| Editor.EnterUnderflows | src/sbbs3/writemsg.cpp:954-966 | With maxlines 1, one line entered, then a line entered with the up arrow, the index as written becomes -1. The corrected entry stays at line 0. |
| Editor.EnterLineAsWritten | src/sbbs3/writemsg.cpp:961-966 | As written (see ## Findings): the line index advances below the limit, and the up arrow takes two off, also at the limit. EnterUnderflows shows it reach -1, and AfterEnter's contract shows it equals the corrected index wherever it is not negative. |
| Editor.InsertOverflows | src/sbbs3/writemsg.cpp:844 | As written, after two lines with maxlines 2 and the up arrow, /I makes three lines. The corrected /I leaves the two. |
| Editor.AfterInsertAsWritten | src/sbbs3/writemsg.cpp:844-846 | As written (see ## Findings): /I is refused when the cursor is at the limit, not when the message is full. InsertOverflows shows it making three lines with maxlines 2. |
| Editor.KeyBit | src/sbbs3/writemsg.cpp:1506-1550 | A key toggles a bit exactly when it is one of P, R, K, A, N, M, V, D and L. |
| Editor.ChangeAttr | src/sbbs3/writemsg.cpp:1506-1550 | The attributes after the keys are ToggledFrom's. |
| Editor.ToggledIsMask | src/sbbs3/writemsg.cpp:1506-1550 | The keys XOR the attributes with one mask. |
| Editor.MaskInMenu | src/sbbs3/writemsg.cpp:1506-1550 | The mask holds only menu bits. |
| Editor.KeyBitInMenu | src/sbbs3/writemsg.cpp:1506-1550 | Each menu key toggles one of the nine menu attributes. |
| Editor.OnlyMenuBitsChange | src/sbbs3/writemsg.cpp:1506-1550 | No bit outside the menu changes. |
| Editor.KeyTwiceRestores | src/sbbs3/writemsg.cpp:1506-1550 | A menu key pressed twice restores the attributes. |

## Left out

- Sockets, `select` timeouts, threads, semaphores, logging and the
  server's start-up and shut-down are not modelled. Each command line
  arrives as a parameter, and each reply is returned.
- DNS, the user base, the message base, the file system, JavaScript and
  `system()` are not modelled. Their look-ups and outcomes are
  parameters (`Facts`, `Network`).
- MD5, hex and base64 are parameters of the digests and decoders that
  use them.
- The bit values of `smbdefs.h` are not part of this model. The proofs
  rely only on each attribute being one bit and on the bits being
  distinct.
- `strncmp` and `strnicmp` reading past the end of a short buffer are
  not modelled: comparisons stop at the end of the text.
- File-open failures (`insuf_stor`, `sys_error`) and lock failures of
  the message base are not modelled.
- Only the number of the relay user is kept in the session. The rest of
  the record is looked up each time. The DNS blacklist state is not
  modelled.
- The challenge text of CRAM-MD5 and APOP is not modelled. The challenge
  is a parameter, and so are the client's answers to the 334 prompts.
- The delay of `badlogin` and its record of failed logins are not
  modelled. A refused login is answered 535 and ends the session.
- SmtpSession.Session.EndData: the storing of an ordinary message, its
  external processors and their replies (lines 2631-3184) are not
  modelled. For such a message the replies are not stated.
- SmtpSession.Session.EndData: the telegram delivery loop reuses
  `rcpt_count` as its index, and copying the text out of memory can
  fail with 452. Neither is modelled. The count is left as it was.
- MailProc.Expand: `mailcmdstr` writes into a fixed buffer given by its
  caller, and the model's expansion is unbounded. Cutting an over-long
  command line is not modelled.
- `usermailaddr` and the building of `fromaddr` in delivery are not
  modelled.
- The rewrite of the RCPT address through `forward_path` (lines
  4723-4725) is not modelled.
- `strip_ctrl` is not modelled.
- `sockmsgtxt` and `remove_ctrl_a` are not modelled. The message text
  reaches POP3 and the body loop as an input.
- The `hdr_lines` and `lines` counters of DATA are not modelled.
- Bounce store failures, the deletion of attached files and the
  auto-exempt after a sent message are not modelled.
- The two waits at the end of DATA of a delivery attempt are not
  modelled separately: they are represented as one refusal.
- Connect timeouts and non-blocking connects are not modelled. A
  connection either succeeds or is refused.
- The copying of `netattr` and `to_net` into the failure notice is not
  modelled.
- Remote replies during delivery come from the `Network` parameter.
- The `findstr` wildcard and comment rules are not modelled. A list
  entry matches when it equals the text, case ignored.
- `SKIP_CHAR` and `FIND_ALPHANUMERIC` are modelled only on the
  characters the routing uses.
- Pop3.Restored: its contract gives only the length. What RSET restores
  is stated by Pop3.ResetUndoesDelete and Pop3.Transaction.Reset.
- Auth.LongKeyCut: states only that 64-byte passwords are cut. Longer
  passwords are cut the same way, which is not stated.
- Editor.RemoveLine: `num == 0` makes the source loop forever, so the
  model requires `num > 0`.
- Editor.RemoveLine, Editor.SkipGroup, Editor.CopyGroup: `num` and `skip`
  are a plain `char` (writemsg.cpp:637), signed on common targets, and the
  model takes them as `nat`. Only the counts 0 to 127 are meant. A negative
  `skip` would act as 0, and a negative `num` would loop forever as 0 does;
  neither is modelled.
- The editor commands /E, /L, /CLR, /S, /T, /ABT and /ATTR and the rest
  of the prompt loop are not modelled. The modelled commands are /D and
  /I, line entry, the import and the save.
- The "no more lines" message and the splitting of over-long typed
  lines are not modelled.
- `MAX_LINE_LEN` beyond the width parameter of the import is not
  modelled.
- A CR in the imported text ends the line and skips the next byte, as
  the source does. The case where that byte is not a LF is not treated
  separately.
- `ulong` is taken as 64 bits wide.
- MailProc.ErrorReplies: `fgets` reads the error file into the 512-byte
  `str` (line 2217), at most 511 bytes at a time, so a line longer than
  that is sent as two or more replies (lines 2715-2717). The model takes each line of the file as one reply.
- Delivery.Ntoa, Delivery.BadMxAddress: the first octet is taken as
  `ip % 256`. That is what `ip & 0xff` gives on a little-endian host for an
  address in network byte order. A big-endian host is not modelled.
- Delivery.Network: `refusal` may give an AUTH-stage refusal for a route
  whose exchange has no AUTH step. The model does not tie the stage to
  `UsesAuth`, so such a network is one the source cannot meet.
- The stale `buf[3]` that `sockgetrsp` reads after a short line is
  stated by Codec.GetRspShortLineAfterContinuation and not reported as a
  finding, since the replies that could trigger it break RFC 5321.

## Findings

| source | as written | input that shows it | evidently intended | confidence | as-written member | corrected member |
|---|---|---|---|---|---|---|
| src/sbbs3/mailsrvr.c:2124-2157 | `qp_decode` rewrites a DATA line in place in the 1024-byte `buf` (line 2223) and appends CRLF and a NUL | a 1023-byte literal line decodes to 1025 bytes plus NUL, 1026 bytes in a 1024-byte buffer | the decoded line fits its buffer | not executed | Codec.QpInPlaceOverflowsLineBuffer | Codec.QpDecodeFitsWhenLineBounded |
| src/sbbs3/mailsrvr.c:610 | the trim tests `*(np+tlen-1)<=' '` on a plain `char` | where `char` is signed, the body line "café" in UTF-8 is sent as "caf" | only trailing white-space and control bytes are trimmed | not executed | Codec.SignedTrimDropsEightBitTail | Codec.BodyFramingRoundTrip |
| src/sbbs3/mailsrvr.c:3329-3342 | AUTH PLAIN walks the 128-byte `tmp` past each field's NUL without a bound | the 127 decoded bytes NUL, then 126 bytes 'u': the password is read at `tmp[128]` | a field that reaches the end of the buffer is refused | not executed | Auth.PlainAsWritten, Auth.PlainReadsPastBuffer | Auth.PlainSplit |
| src/sbbs3/mailsrvr.c:3557-3580 | MAIL FROM: starts a new transaction but does not clear `telegram`, which RSET (line 3506) and HELO (lines 3270, 3288) do | SEND FROM:, RCPT TO: a local user, then MAIL FROM:: DATA skips the header and delivers a telegram | a new MAIL transaction is never a telegram | not executed | Smtp.FromAsWritten, Smtp.MailAfterSendStaysTelegram | SmtpSession.Session.From |
| src/sbbs3/mailsrvr.c:3731-3743 | `dest_port=atoi(...)` in host order is compared with `sin_port` in network order | on a little-endian server on port 25, "host:25" counts as remote and "host:6400" as local | the explicit port is compared in one byte order | not executed | Smtp.LocalDestAsWritten, Smtp.ExplicitPortMisread | Smtp.LocalDestPort |
| src/sbbs3/mailsrvr.c:4646-4712 | a relay's AUTH refusal bounces without `remove_msg_intransit` | a relay that answers AUTH with a 4xx reply: the message is neither deleted nor released, and no later pass sends it | every ending of an attempt releases the message | not executed | Delivery.AfterAttemptAsWritten, Delivery.AuthRefusalStaysClaimed | Delivery.ReleasedAfterAttempt |
| src/sbbs3/writemsg.cpp:684 | `removeline` copies `buf[l]` up to and including the line feed, one byte past the end when the last line has none | the file "a" with text "b" to remove becomes "a" plus one byte | a last line without a line feed is copied up to the end | not executed | Editor.RemovedAsWritten, Editor.KeptAsWritten, Editor.RemoveLineOverrun | Editor.RemoveLine |
| src/sbbs3/writemsg.cpp:844 | `/I` is refused when `line==maxlines`, testing the cursor instead of the count | with 2 lines and maxlines 2, the up arrow and then /I makes 3 lines | /I is refused when the message is full | not executed | Editor.AfterInsertAsWritten, Editor.InsertOverflows | Editor.LineEditor.Insert |
| src/sbbs3/writemsg.cpp:961-966 | the up arrow takes `line` down by two also at the limit, where it was not advanced | maxlines 1: one line entered, then a line entered with the up arrow, leaves `line` at -1, and the next prompt reads `str[-1]` | the index never goes below the first line | not executed | Editor.EnterLineAsWritten, Editor.EnterUnderflows | Editor.AfterEnter |

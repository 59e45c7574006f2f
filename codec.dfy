/** Body codecs and line framing of the mail server: the in-place
    quoted-printable decoder (section 6.7 of RFC 2045), the outbound body
    loop that splits, trims and dot-stuffs lines (section 2.1.1 of RFC 5322,
    section 4.5.2 of RFC 5321), the inbound body-line capture, and the
    socket line-reading and reply-reading rules. */
module Codec {
  import opened Text

  // ---------------------------------------------------------------- quoted-printable

  /** Bytes the decoder copies unchanged: space, tab and '!'..'~' except '='. */
  predicate QpLiteral(c: char) {
    c == ' ' || c == '\t' || ('!' <= c <= '~' && c != '=')
  }

  function HexValue(c: char): (v: nat)
    requires IsXDigit(c)
    ensures v < 16
  {
    if IsDigit(c) then c as int - '0' as int
    else if 'a' <= c <= 'f' then c as int - 'a' as int + 10
    else c as int - 'A' as int + 10
  }

  function HexDigit(v: nat): (c: char)
    requires v < 16
    ensures IsXDigit(c) && HexValue(c) == v
  {
    if v < 10 then ('0' as int + v) as char else ('A' as int + v - 10) as char
  }

  /** The byte that two hex digits stand for (strtoul(hex, NULL, 16)). */
  function HexByte(hi: char, lo: char): (c: char)
    requires IsXDigit(hi) && IsXDigit(lo)
    ensures c as int < 256
  {
    (16 * HexValue(hi) + HexValue(lo)) as char
  }

  /** What qp_decode turns the C string `s` into (before the closing NUL). */
  function QpDecoded(s: string): string
    decreases |s|
  {
    if s == [] then CRLF
    else if QpLiteral(s[0]) then [s[0]] + QpDecoded(s[1..])
    else if s[0] == '=' then
      if |s| == 1 then []
      else if |s| >= 3 && IsXDigit(s[1]) && IsXDigit(s[2]) then [HexByte(s[1], s[2])] + QpDecoded(s[3..])
      else ['=', s[1]] + QpDecoded(s[2..])
    else QpDecoded(s[1..])
  }

  /** qp_decode: rewrites the C string held in buf[..n] in place, with a read
      cursor `p` and a write cursor `dest` that never passes it. The decoded
      text may be two bytes longer than the input (the CRLF) and is followed
      by a NUL, so the buffer must hold n + 3 bytes. */
  method QpDecode(buf: array<char>, n: nat) returns (len: nat)
    requires n + 3 <= buf.Length && NUL !in buf[..n]
    modifies buf
    ensures len + 1 <= buf.Length
    ensures buf[..len] == QpDecoded(old(buf[..n]))
    ensures buf[len] == NUL
  {
    ghost var orig := buf[..n];
    var p, dest := 0, 0;
    while p < n
      invariant 0 <= dest <= p <= n
      invariant forall k :: p <= k < n ==> buf[k] == orig[k]
      invariant buf[..dest] + QpDecoded(orig[p..]) == QpDecoded(orig)
      decreases n - p
    {
      var soft: bool;
      p, dest, soft := QpStep(buf, n, p, dest, orig);
      if soft {
        buf[dest] := NUL;
        len := dest;
        return;
      }
    }
    assert orig[n..] == [];
    ghost var out := buf[..dest];
    buf[dest] := CR;
    buf[dest + 1] := LF;
    buf[dest + 2] := NUL;
    len := dest + 2;
    assert buf[..len] == out + CRLF;
  }

  /** One pass of the decoder's loop at read cursor p: writes `w` at dest
      and moves both cursors; `soft` reports a closing '=' (soft line break). */
  method QpStep(buf: array<char>, n: nat, p: nat, dest: nat, ghost orig: string)
      returns (p2: nat, dest2: nat, soft: bool)
    requires dest <= p < n < buf.Length && |orig| == n
    requires forall k :: p <= k < n ==> buf[k] == orig[k]
    modifies buf
    ensures p < p2 <= n && dest <= dest2 <= p2
    ensures forall k :: p2 <= k < n ==> buf[k] == orig[k]
    ensures soft ==> p2 == n && dest2 == dest && buf[..dest] == old(buf[..dest]) && QpDecoded(orig[p..]) == []
    ensures !soft ==> old(buf[..dest]) + QpDecoded(orig[p..]) == buf[..dest2] + QpDecoded(orig[p2..])
  {
    QpSuffix(orig, p);
    var c := buf[p];
    soft := false;
    if QpLiteral(c) {
      Put(buf, dest, c);
      dest2, p2 := dest + 1, p + 1;
      Assoc(old(buf[..dest]), [c], QpDecoded(orig[p2..]));
    } else if c == '=' {
      p2, dest2, soft := QpEscape(buf, n, p, dest, orig);
    } else {
      dest2, p2 := dest, p + 1;
    }
  }

  /** The '=' branch of the decoder's loop: a soft line break, an escaped
      byte, or a bad escape kept as written. */
  method QpEscape(buf: array<char>, n: nat, p: nat, dest: nat, ghost orig: string)
      returns (p2: nat, dest2: nat, soft: bool)
    requires dest <= p < n < buf.Length && |orig| == n && orig[p] == '='
    requires forall k :: p <= k < n ==> buf[k] == orig[k]
    modifies buf
    ensures p < p2 <= n && dest <= dest2 <= p2
    ensures forall k :: p2 <= k < n ==> buf[k] == orig[k]
    ensures soft ==> p2 == n && dest2 == dest && buf[..dest] == old(buf[..dest]) && QpDecoded(orig[p..]) == []
    ensures !soft ==> old(buf[..dest]) + QpDecoded(orig[p..]) == buf[..dest2] + QpDecoded(orig[p2..])
  {
    QpSuffix(orig, p);
    soft := false;
    if p + 1 == n {
      dest2, p2 := dest, n;
      soft := true;
      return;
    }
    var c1 := buf[p + 1];
    if p + 2 < n && IsXDigit(c1) && IsXDigit(buf[p + 2]) {
      var b := HexByte(c1, buf[p + 2]);
      Put(buf, dest, b);
      dest2, p2 := dest + 1, p + 3;
      Assoc(old(buf[..dest]), [b], QpDecoded(orig[p2..]));
    } else {
      Put2(buf, dest, '=', c1);
      dest2, p2 := dest + 2, p + 2;
      Assoc(old(buf[..dest]), ['=', c1], QpDecoded(orig[p2..]));
    }
  }

  /** Two writes at the decoder's write cursor. */
  method Put2(buf: array<char>, dest: nat, c: char, d: char)
    requires dest + 1 < buf.Length
    modifies buf
    ensures buf[..dest + 2] == old(buf[..dest]) + [c, d]
    ensures forall k :: 0 <= k < buf.Length && k != dest && k != dest + 1 ==> buf[k] == old(buf[k])
  {
    Put(buf, dest, c);
    ghost var half := buf[..dest + 1];
    Put(buf, dest + 1, d);
    Assoc(old(buf[..dest]), [c], [d]);
    assert [c] + [d] == [c, d];
    assert buf[..dest + 2] == half + [d];
  }

  /** One write at the decoder's write cursor. */
  method Put(buf: array<char>, dest: nat, c: char)
    requires dest < buf.Length
    modifies buf
    ensures buf[..dest + 1] == old(buf[..dest]) + [c]
    ensures forall k :: 0 <= k < buf.Length && k != dest ==> buf[k] == old(buf[k])
  {
    buf[dest] := c;
    assert buf[..dest + 1] == buf[..dest] + [c];
  }

  /** One step of the decoder at position p of `s`, in terms of the suffixes of `s`. */
  lemma QpSuffix(s: string, p: nat)
    requires p < |s|
    ensures QpLiteral(s[p]) ==> QpDecoded(s[p..]) == [s[p]] + QpDecoded(s[p + 1..])
    ensures s[p] == '=' && p + 1 == |s| ==> QpDecoded(s[p..]) == []
    ensures s[p] == '=' && p + 2 < |s| && IsXDigit(s[p + 1]) && IsXDigit(s[p + 2]) ==>
      QpDecoded(s[p..]) == [HexByte(s[p + 1], s[p + 2])] + QpDecoded(s[p + 3..])
    ensures s[p] == '=' && p + 1 < |s| && !(p + 2 < |s| && IsXDigit(s[p + 1]) && IsXDigit(s[p + 2])) ==>
      QpDecoded(s[p..]) == ['=', s[p + 1]] + QpDecoded(s[p + 2..])
    ensures !QpLiteral(s[p]) && s[p] != '=' ==> QpDecoded(s[p..]) == QpDecoded(s[p + 1..])
  {
    var t := s[p..];
    assert t[0] == s[p];
    assert t[1..] == s[p + 1..];
    if p + 1 < |s| {
      assert t[1] == s[p + 1];
      assert t[2..] == s[p + 2..];
    }
    if p + 2 < |s| {
      assert t[2] == s[p + 2];
      assert t[3..] == s[p + 3..];
    }
  }

  /** The decoded text is at most two bytes longer than the encoded one. */
  lemma {:induction false} QpDecodedLength(s: string)
    ensures |QpDecoded(s)| <= |s| + 2
    decreases |s|
  {
    if s == [] {
    } else if QpLiteral(s[0]) {
      QpDecodedLength(s[1..]);
    } else if s[0] == '=' {
      if |s| == 1 {
      } else if |s| >= 3 && IsXDigit(s[1]) && IsXDigit(s[2]) {
        QpDecodedLength(s[3..]);
      } else {
        QpDecodedLength(s[2..]);
      }
    } else {
      QpDecodedLength(s[1..]);
    }
  }

  /** Text made only of literal bytes is copied and gets a CRLF. */
  lemma {:induction false} QpLiteralText(s: string)
    requires forall k :: 0 <= k < |s| ==> QpLiteral(s[k])
    ensures QpDecoded(s) == s + CRLF
    decreases |s|
  {
    if s != [] {
      QpLiteralText(s[1..]);
      assert s == [s[0]] + s[1..];
    }
  }

  /** A reference encoder (section 6.7 of RFC 2045, rules 1 and 2, without
      soft line breaks): literal bytes stand for themselves, every other
      byte is written "=XY". */
  function QpEncode(x: string): (e: string)
    ensures |x| <= |e| <= 3 * |x|
  {
    if x == [] then [] else QpEncodeByte(x[0]) + QpEncode(x[1..])
  }

  function QpEncodeByte(c: char): (e: string)
    ensures 1 <= |e| <= 3
  {
    if QpLiteral(c) || c as int >= 256 then [c]
    else ['=', HexDigit(c as int / 16), HexDigit(c as int % 16)]
  }

  predicate Bytes(x: string) {
    forall k :: 0 <= k < |x| ==> x[k] as int < 256
  }

  /** The decoder reads one encoded byte back, whatever follows it. */
  lemma QpDecodeByte(c: char, rest: string)
    requires c as int < 256
    ensures QpDecoded(QpEncodeByte(c) + rest) == [c] + QpDecoded(rest)
  {
    var e := QpEncodeByte(c) + rest;
    if QpLiteral(c) {
      assert e[1..] == rest;
    } else {
      var hi, lo := HexDigit(c as int / 16), HexDigit(c as int % 16);
      assert e[0] == '=' && e[1] == hi && e[2] == lo && e[3..] == rest;
      assert HexByte(hi, lo) == c;
    }
  }

  /** The decoder reads encoded bytes back, whatever follows them. */
  lemma {:induction false} QpDecodeEncoded(x: string, tail: string)
    requires Bytes(x)
    ensures QpDecoded(QpEncode(x) + tail) == x + QpDecoded(tail)
    decreases |x|
  {
    if x == [] {
      assert QpEncode(x) + tail == tail;
    } else {
      QpDecodeEncoded(x[1..], tail);
      Assoc(QpEncodeByte(x[0]), QpEncode(x[1..]), tail);
      QpDecodeByte(x[0], QpEncode(x[1..]) + tail);
      Assoc([x[0]], x[1..], QpDecoded(tail));
      assert x == [x[0]] + x[1..];
    }
  }

  /** Decoding undoes encoding: every byte comes back, followed by CRLF,
      or without CRLF when a soft line break '=' closes the line. */
  lemma QpRoundTrip(x: string)
    requires Bytes(x)
    ensures QpDecoded(QpEncode(x)) == x + CRLF
    ensures QpDecoded(QpEncode(x) + "=") == x
  {
    QpDecodeEncoded(x, []);
    assert QpEncode(x) + [] == QpEncode(x);
    QpDecodeEncoded(x, "=");
    assert QpDecoded("=") == [];
  }

  /** '=' followed by a byte that does not start a hex pair is kept as
      '=' plus that byte; bytes the decoder does not know are dropped. */
  lemma QpBadEscapeAndDropped(c: char, d: char, rest: string)
    requires !IsXDigit(c) && !QpLiteral(d) && d != '='
    ensures QpDecoded(['=', c] + rest) == ['=', c] + QpDecoded(rest)
    ensures QpDecoded([d] + rest) == QpDecoded(rest)
  {
    assert (['=', c] + rest)[2..] == rest;
    assert ([d] + rest)[1..] == rest;
  }

  /** The DATA command reads each line into a 1024-byte buffer, so a line may
      hold 1023 bytes. The in-place decoder needs 1023 + 3 bytes for such a line
      (the CRLF and the NUL), two more than the buffer has. */
  lemma QpInPlaceOverflowsLineBuffer()
    ensures exists s: string :: |s| == 1023 && |QpDecoded(s)| + 1 == 1026
  {
    var s := seq(1023, _ => 'a');
    QpLiteralText(s);
    assert |QpDecoded(s)| + 1 == 1026;
  }

  /** A DATA line read with room kept for the CRLF and the NUL (a read
      length of 1022, at most 1021 bytes) decodes in place inside the
      1024-byte buffer. */
  lemma QpDecodeFitsWhenLineBounded(input: string)
    requires ReadLine(input, 1022).Some?
    ensures |QpDecoded(ReadLine(input, 1022).value.0)| + 1 <= 1024
  {
    ReadLineBounds(input, 1022);
    QpDecodedLength(ReadLine(input, 1022).value.0);
  }

  // ---------------------------------------------------------------- outbound body

  /** RFC 5322 allows 998 characters per line, not counting CRLF. */
  const MaxLineLen: nat := 998

  /** Where the line that starts at `np` ends: the first index from `i` on
      that holds NUL or LF, is MaxLineLen bytes past `np`, or is the end of the text. */
  function LineEnd(text: string, np: nat, i: nat): (e: nat)
    requires np <= i <= |text| && i <= np + MaxLineLen
    ensures i <= e <= |text| && e <= np + MaxLineLen
    decreases np + MaxLineLen - i
  {
    if i < np + MaxLineLen && i < |text| && text[i] != NUL && text[i] != LF then LineEnd(text, np, i + 1) else i
  }

  /** Where text[np..e] ends once its trailing byte of at most ' 's are dropped. */
  function TrimAt(text: string, np: nat, e: nat, signedChar: bool): (k: nat)
    requires np <= e <= |text|
    ensures np <= k <= e
    ensures k > np ==> !LeSpace(text[k - 1], signedChar)
  {
    if e > np && LeSpace(text[e - 1], signedChar) then TrimAt(text, np, e - 1, signedChar) else e
  }

  /** The source bytes of the line at `np`: up to MaxLineLen of them, without
      the NUL or LF that ends them and without their trailing byte of at most ' 's. */
  function Piece(text: string, np: nat, signedChar: bool): string
    requires np <= |text|
  {
    Sub(text, np, TrimAt(text, np, LineEnd(text, np, np), signedChar))
  }

  /** text[i..j], built byte by byte. */
  function Sub(text: string, i: nat, j: nat): (r: string)
    requires i <= j <= |text|
    ensures |r| == j - i
    decreases j
  {
    if j == i then [] else Sub(text, i, j - 1) + [text[j - 1]]
  }

  lemma {:induction false} SubIsSlice(text: string, i: nat, j: nat)
    requires i <= j <= |text|
    ensures Sub(text, i, j) == text[i..j]
    decreases j
  {
    if j > i {
      SubIsSlice(text, i, j - 1);
      assert text[i..j] == text[i..j - 1] + [text[j - 1]];
    }
  }

  /** The line at `np` as sent: a second '.' when the text there starts with one. */
  function SentLine(text: string, np: nat, signedChar: bool): string
    requires np < |text|
  {
    (if text[np] == '.' then "." else "") + Piece(text, np, signedChar)
  }

  /** Where the cursor goes after the line at `np`: past its bytes, one CR
      and one LF if they are there. */
  function Next(text: string, np: nat): (n: nat)
    requires np < |text| && text[np] != NUL
    ensures np < n <= |text|
  {
    var e := LineEnd(text, np, np);
    var a := if e < |text| && text[e] == CR then e + 1 else e;
    if a < |text| && text[a] == LF then a + 1 else a
  }

  /** The lines (without CRLF) the body loop sends from cursor `np` on. */
  function BodyLinesFrom(text: string, np: nat, maxlines: nat, signedChar: bool): seq<string>
    requires np <= |text|
    decreases |text| - np
  {
    if np == |text| || text[np] == NUL || maxlines == 0 then []
    else [SentLine(text, np, signedChar)] + BodyLinesFrom(text, Next(text, np), maxlines - 1, signedChar)
  }

  /** The lines (without CRLF) the body loop sends for `text`. */
  function BodyLines(text: string, maxlines: nat, signedChar: bool): seq<string> {
    BodyLinesFrom(text, 0, maxlines, signedChar)
  }

  lemma ShiftOne<T>(done: seq<T>, x: T, todo: seq<T>, after: seq<T>, all: seq<T>)
    requires done + todo == all && todo == [x] + after
    ensures (done + [x]) + after == all
  {
    assert (done + [x]) + after == done + ([x] + after);
  }

  /** The body loop of sockmimetext: sends the lines of `text`, each as
      "%s%.*s" with the stuffing dot, until the text or `maxlines` runs out. */
  method SendBody(text: string, maxlines: nat, signedChar: bool) returns (sent: seq<string>)
    ensures sent == BodyLines(text, maxlines, signedChar)
  {
    sent := [];
    var lines := 0;
    var np := 0;
    var left: nat := maxlines;
    Unit(BodyLines(text, maxlines, signedChar));
    while np < |text| && text[np] != NUL && lines < maxlines
      invariant np <= |text| && lines <= maxlines && left == maxlines - lines
      invariant sent + BodyLinesFrom(text, np, left, signedChar) == BodyLines(text, maxlines, signedChar)
      decreases |text| - np
    {
      var len;
      sent, len := SendOne(text, np, left, signedChar, sent, BodyLines(text, maxlines, signedChar));
      lines := lines + 1;
      np := np + len;
      left := left - 1;
    }
    assert BodyLinesFrom(text, np, left, signedChar) == [];
    Unit(sent);
  }

  lemma BodyLinesStop(text: string, np: nat, maxlines: nat, signedChar: bool)
    requires np <= |text| && (np == |text| || text[np] == NUL || maxlines == 0)
    ensures BodyLinesFrom(text, np, maxlines, signedChar) == []
  {
  }

  lemma BodyLinesStep(text: string, np: nat, maxlines: nat, signedChar: bool)
    requires np < |text| && text[np] != NUL && maxlines > 0
    ensures BodyLinesFrom(text, np, maxlines, signedChar)
         == [SentLine(text, np, signedChar)] + BodyLinesFrom(text, Next(text, np), maxlines - 1, signedChar)
  {
  }

  /** One pass of the body loop: sends the line at `np` and reports the
      bytes it consumes. */
  method SendOne(text: string, np: nat, left: nat, signedChar: bool, sent: seq<string>, ghost all: seq<string>)
      returns (sent2: seq<string>, len: nat)
    requires np < |text| && text[np] != NUL && left > 0
    requires sent + BodyLinesFrom(text, np, left, signedChar) == all
    ensures np < np + len <= |text|
    ensures sent2 + BodyLinesFrom(text, np + len, left - 1, signedChar) == all
  {
    len := ScanLine(text, np);
    var tlen := ScanTrim(text, np, len, signedChar);
    var line := StuffedLine(text, np, tlen, len, signedChar);
    len := SkipEol(text, np, len);
    BodyLinesStep(text, np, left, signedChar);
    ShiftOne(sent, line, BodyLinesFrom(text, np, left, signedChar), BodyLinesFrom(text, np + len, left - 1, signedChar), all);
    sent2 := sent + [line];
  }

  /** Builds the line sent: "." when the source line starts with one, then
      the `tlen` bytes that survive the trim. */
  method StuffedLine(text: string, np: nat, tlen: nat, len: nat, signedChar: bool) returns (line: string)
    requires np < |text| && np + len == LineEnd(text, np, np)
    requires np + tlen == TrimAt(text, np, np + len, signedChar)
    ensures line == SentLine(text, np, signedChar)
  {
    line := (if text[np] == '.' then "." else "") + text[np..np + tlen];
    SubIsSlice(text, np, np + tlen);
  }

  /** The scan for the end of the line at `np`. */
  method ScanLine(text: string, np: nat) returns (len: nat)
    requires np < |text|
    ensures np + len == LineEnd(text, np, np)
  {
    len := 0;
    while len < MaxLineLen && np + len < |text| && text[np + len] != NUL && text[np + len] != LF
      invariant len <= MaxLineLen && np + len <= |text|
      invariant LineEnd(text, np, np + len) == LineEnd(text, np, np)
    {
      len := len + 1;
    }
  }

  /** The trim of the trailing byte of at most ' 's of a line of `len` bytes. */
  method ScanTrim(text: string, np: nat, len: nat, signedChar: bool) returns (tlen: nat)
    requires np + len <= |text|
    ensures np + tlen == TrimAt(text, np, np + len, signedChar)
  {
    tlen := len;
    while tlen > 0 && LeSpace(text[np + tlen - 1], signedChar)
      invariant tlen <= len
      invariant TrimAt(text, np, np + tlen, signedChar) == TrimAt(text, np, np + len, signedChar)
    {
      tlen := tlen - 1;
    }
  }

  /** Steps over one CR and then one LF after the line. */
  method SkipEol(text: string, np: nat, len: nat) returns (n: nat)
    requires np < |text| && text[np] != NUL && np + len == LineEnd(text, np, np)
    ensures np + n == Next(text, np)
  {
    n := len;
    if np + n < |text| && text[np + n] == CR {
      n := n + 1;
    }
    if np + n < |text| && text[np + n] == LF {
      n := n + 1;
    }
  }

  lemma {:induction false} BodyLinesCount(text: string, np: nat, maxlines: nat, signedChar: bool)
    requires np <= |text|
    ensures |BodyLinesFrom(text, np, maxlines, signedChar)| <= maxlines
    decreases |text| - np
  {
    if !(np == |text| || text[np] == NUL || maxlines == 0) {
      BodyLinesCount(text, Next(text, np), maxlines - 1, signedChar);
      BodyLinesStep(text, np, maxlines, signedChar);
    }
  }

  /** Dot-stuffing (section 4.5.2 of RFC 5321): a line that starts with '.'
      gets one more. */
  function Stuff(piece: string): string {
    if piece != [] && piece[0] == '.' then "." + piece else piece
  }

  /** The receiver strips exactly one leading '.'. */
  function Unstuff(line: string): string {
    if line != [] && line[0] == '.' then line[1..] else line
  }

  /** Stuffing is undone by the receiver's unstuffing, and a stuffed line is
      never the lone "." that terminates the data. */
  lemma StuffRoundTrip(piece: string)
    ensures Unstuff(Stuff(piece)) == piece
    ensures Stuff(piece) != "."
    ensures Stuff(piece) != [] && Stuff(piece)[0] == '.' <==> piece != [] && piece[0] == '.'
  {
  }

  lemma {:induction false} LineEndStops(text: string, np: nat, i: nat)
    requires np <= i <= |text| && i <= np + MaxLineLen
    ensures forall k :: i <= k < LineEnd(text, np, i) ==> text[k] != NUL && text[k] != LF
    decreases np + MaxLineLen - i
  {
    if i < np + MaxLineLen && i < |text| && text[i] != NUL && text[i] != LF {
      LineEndStops(text, np, i + 1);
    }
  }

  lemma {:induction false} TrimAtKeeps(text: string, np: nat, e: nat, signedChar: bool)
    requires np < e <= |text| && !LeSpace(text[np], signedChar)
    ensures TrimAt(text, np, e, signedChar) > np
    decreases e
  {
    if e > np + 1 && LeSpace(text[e - 1], signedChar) {
      TrimAtKeeps(text, np, e - 1, signedChar);
    }
  }

  /** The sender tests the first byte of the source text, not of the trimmed
      piece; the two agree, so each line sent is its piece dot-stuffed. */
  lemma SentLineIsStuffed(text: string, np: nat, signedChar: bool)
    requires np < |text| && text[np] != NUL
    ensures SentLine(text, np, signedChar) == Stuff(Piece(text, np, signedChar))
  {
    var e := LineEnd(text, np, np);
    var k := TrimAt(text, np, e, signedChar);
    SubIsSlice(text, np, k);
    if text[np] == '.' {
      LineEndStops(text, np, np);
      TrimAtKeeps(text, np, e, signedChar);
      assert Piece(text, np, signedChar)[0] == '.';
    } else if k > np {
      assert Piece(text, np, signedChar)[0] == text[np];
    }
  }

  /** A piece is at most 998 bytes and does not end in a byte of at most ' '. */
  lemma PieceShape(text: string, np: nat, signedChar: bool)
    requires np <= |text|
    ensures |Piece(text, np, signedChar)| <= MaxLineLen
    ensures Piece(text, np, signedChar) == [] ||
      !LeSpace(Piece(text, np, signedChar)[|Piece(text, np, signedChar)| - 1], signedChar)
  {
    var k := TrimAt(text, np, LineEnd(text, np, np), signedChar);
    SubIsSlice(text, np, k);
  }

  /** A sent line as the receiver sees it: once its stuffing dot is removed
      it is at most 998 source bytes not ending in a byte of at most ' ', and it is
      never the lone "." that ends the data. */
  predicate SentLineOk(l: string, signedChar: bool) {
    Stuff(Unstuff(l)) == l && |Unstuff(l)| <= MaxLineLen && l != "." &&
    (Unstuff(l) == [] || !LeSpace(Unstuff(l)[|Unstuff(l)| - 1], signedChar))
  }

  /** Every line the body loop sends is well-formed for the receiver. */
  lemma BodyLinesShape(text: string, maxlines: nat, signedChar: bool)
    ensures forall l :: l in BodyLines(text, maxlines, signedChar) ==> SentLineOk(l, signedChar)
  {
    BodyLinesFromOk(text, 0, maxlines, signedChar);
    AllOkMeans(BodyLines(text, maxlines, signedChar), signedChar);
  }

  predicate AllOk(ls: seq<string>, signedChar: bool) {
    ls == [] || (SentLineOk(ls[0], signedChar) && AllOk(ls[1..], signedChar))
  }

  lemma {:induction false} AllOkMeans(ls: seq<string>, signedChar: bool)
    requires AllOk(ls, signedChar)
    ensures forall l :: l in ls ==> SentLineOk(l, signedChar)
  {
    if ls != [] {
      AllOkMeans(ls[1..], signedChar);
      assert forall l :: l in ls ==> l == ls[0] || l in ls[1..];
    }
  }

  lemma ConsSentLine(text: string, np: nat, tail: seq<string>, signedChar: bool)
    requires np < |text| && text[np] != NUL && AllOk(tail, signedChar)
    ensures AllOk([SentLine(text, np, signedChar)] + tail, signedChar)
  {
    SentLineShape(text, np, signedChar);
    AllOkCons(SentLine(text, np, signedChar), tail, signedChar);
  }

  lemma AllOkCons(x: string, tail: seq<string>, signedChar: bool)
    requires SentLineOk(x, signedChar) && AllOk(tail, signedChar)
    ensures AllOk([x] + tail, signedChar)
  {
    assert ([x] + tail)[1..] == tail;
  }

  lemma {:induction false} BodyLinesFromOk(text: string, np: nat, maxlines: nat, signedChar: bool)
    requires np <= |text|
    ensures AllOk(BodyLinesFrom(text, np, maxlines, signedChar), signedChar)
    decreases |text| - np
  {
    if np == |text| || text[np] == NUL || maxlines == 0 {
      BodyLinesStop(text, np, maxlines, signedChar);
    } else {
      var n2 := Next(text, np);
      BodyLinesFromOk(text, n2, maxlines - 1, signedChar);
      var tail := BodyLinesFrom(text, n2, maxlines - 1, signedChar);
      ConsSentLine(text, np, tail, signedChar);
      BodyLinesStep(text, np, maxlines, signedChar);
      assert BodyLinesFrom(text, np, maxlines, signedChar) == [SentLine(text, np, signedChar)] + tail;
    }
  }

  lemma SentLineShape(text: string, np: nat, signedChar: bool)
    requires np < |text| && text[np] != NUL
    ensures SentLineOk(SentLine(text, np, signedChar), signedChar)
  {
    SentLineIsStuffed(text, np, signedChar);
    var piece := Piece(text, np, signedChar);
    PieceShape(text, np, signedChar);
    StuffRoundTrip(piece);
  }

  /** A well-formed body line: no NUL or LF, at most 998 bytes, not ending in a byte of at most ' '. */
  predicate SendableLine(l: string, signedChar: bool) {
    |l| <= MaxLineLen && NUL !in l && LF !in l && (l == [] || !LeSpace(l[|l| - 1], signedChar))
  }

  function JoinLines(ls: seq<string>): string {
    if ls == [] then [] else ls[0] + CRLF + JoinLines(ls[1..])
  }

  function StuffAll(ls: seq<string>): (r: seq<string>)
    ensures |r| == |ls| && forall i :: 0 <= i < |ls| ==> r[i] == Stuff(ls[i])
  {
    if ls == [] then [] else [Stuff(ls[0])] + StuffAll(ls[1..])
  }

  lemma {:induction false} LineEndOf(text: string, np: nat, n: nat, i: nat)
    requires np <= i <= n < |text| && n <= np + MaxLineLen
    requires forall k :: np <= k < n ==> text[k] != NUL && text[k] != LF
    requires n == np + MaxLineLen || text[n] == LF
    ensures LineEnd(text, np, i) == n
    decreases n - i
  {
    if i < n {
      LineEndOf(text, np, n, i + 1);
    }
  }

  /** A line of text[np..n] followed by CRLF, with no NUL or LF in it, at
      most 998 bytes and not ending in a byte of at most ' ', is sent whole, and the
      cursor moves past the CRLF. */
  lemma OneLineAt(text: string, np: nat, n: nat, signedChar: bool)
    requires np <= n && n + 2 <= |text| && n <= np + MaxLineLen
    requires forall k :: np <= k < n ==> text[k] != NUL && text[k] != LF
    requires text[n] == CR && text[n + 1] == LF
    requires n == np || !LeSpace(text[n - 1], signedChar)
    ensures text[np] != NUL
    ensures TrimAt(text, np, LineEnd(text, np, np), signedChar) == n && Next(text, np) == n + 2
  {
    var e := if n < np + MaxLineLen then n + 1 else n;
    LineEndOf(text, np, e, np);
    assert LeSpace(text[n], signedChar);
    assert TrimAt(text, np, n, signedChar) == n;
  }

  lemma OneLine(text: string, np: nat, l: string, signedChar: bool)
    requires SendableLine(l, signedChar)
    requires np + |l| + 2 <= |text| && text[np..np + |l| + 2] == l + CRLF
    ensures text[np] != NUL
    ensures Piece(text, np, signedChar) == l && Next(text, np) == np + |l| + 2
  {
    var n := np + |l|;
    assert forall k :: np <= k < n ==> text[k] == l[k - np] by {
      forall k | np <= k < n ensures text[k] == l[k - np] {
        assert text[k] == text[np..np + |l| + 2][k - np];
      }
    }
    assert text[n] == text[np..np + |l| + 2][|l|];
    assert text[n + 1] == text[np..np + |l| + 2][|l| + 1];
    OneLineAt(text, np, n, signedChar);
    SubIsSlice(text, np, n);
    assert text[np..n] == l;
  }

  lemma SplitAt(text: string, np: nat, a: string, b: string)
    requires np <= |text| && text[np..] == a + b
    ensures np + |a| <= |text| && text[np..np + |a|] == a && text[np + |a|..] == b
  {
    assert text[np..np + |a|] == (a + b)[..|a|];
    assert text[np + |a|..] == (a + b)[|a|..];
  }

  /** Framing round trip: text made of well-formed lines, each ended by CRLF,
      is sent line for line, each line stuffed and nothing lost. */
  lemma {:induction false} BodyFraming(text: string, np: nat, ls: seq<string>, signedChar: bool)
    requires forall l :: l in ls ==> SendableLine(l, signedChar)
    requires np <= |text| && text[np..] == JoinLines(ls)
    ensures BodyLinesFrom(text, np, |ls|, signedChar) == StuffAll(ls)
    decreases |ls|
  {
    if ls != [] {
      var l, tl := ls[0], ls[1..];
      var m := |tl|;
      assert m == |ls| - 1;
      SplitAt(text, np, l + CRLF, JoinLines(tl));
      assert l in ls;
      OneLine(text, np, l, signedChar);
      var n2 := Next(text, np);
      assert n2 == np + |l| + 2;
      SentLineIsStuffed(text, np, signedChar);
      assert forall x :: x in tl ==> x in ls;
      BodyFraming(text, n2, tl, signedChar);
      BodyLinesStep(text, np, |ls|, signedChar);
      assert BodyLinesFrom(text, np, |ls|, signedChar) == [Stuff(l)] + BodyLinesFrom(text, n2, m, signedChar);
    }
  }

  lemma BodyFramingRoundTrip(ls: seq<string>, signedChar: bool)
    requires forall l :: l in ls ==> SendableLine(l, signedChar)
    ensures BodyLines(JoinLines(ls), |ls|, signedChar) == StuffAll(ls)
  {
    var text := JoinLines(ls);
    assert text[0..] == text;
    BodyFraming(text, 0, ls, signedChar);
  }

  /** Where `char` is signed, a body line ending in an 8-bit byte (here the
      UTF-8 encoding of 'é') loses that byte; where it is unsigned, it is sent whole. */
  lemma SignedTrimDropsEightBitTail()
    ensures BodyLines("cafÃ©", 1, true) == ["caf"]
    ensures BodyLines("cafÃ©", 1, false) == ["cafÃ©"]
  {
    var t := "cafÃ©";
    assert LineEnd(t, 0, 0) == 5 by {
      assert LineEnd(t, 0, 5) == 5;
      assert LineEnd(t, 0, 3) == 5;
    }
    assert TrimAt(t, 0, 5, true) == 3;
    assert TrimAt(t, 0, 5, false) == 5;
    assert Piece(t, 0, true) == "caf" by { assert t[0..3] == "caf"; }
    assert Piece(t, 0, false) == t by { assert t[0..5] == t; }
    assert Next(t, 0) == 5;
    assert SentLine(t, 0, true) == "caf" && SentLine(t, 0, false) == t;
    BodyLinesStep(t, 0, 1, true);
    BodyLinesStep(t, 0, 1, false);
  }

  // ---------------------------------------------------------------- inbound body

  /** content_encoding of the SMTP session. */
  datatype Encoding = NoEncoding | Base64 | QuotedPrintable

  /** What one received body line adds to the message text: one leading '.'
      is removed, then the line is decoded by the selected encoding. A base64
      decoder is given as `b64` (None when it reports an error); text written
      with fputs ends at its first NUL. */
  function CaptureBodyLine(line: string, enc: Encoding, b64: string -> Option<string>): (r: string)
    ensures enc == NoEncoding ==> |r| == |Unstuff(line)| + 2 && r[..|Unstuff(line)|] == Unstuff(line)
    ensures enc == QuotedPrintable || (enc == Base64 && b64(Unstuff(line)).Some?) ==> NUL !in r
  {
    var p := Unstuff(line);
    match enc
    case NoEncoding => p + CRLF
    case Base64 =>
      (match b64(p)
       case None => "\r\n!Base64 decode error: " + p + CRLF
       case Some(d) => CStr(d))
    case QuotedPrintable => CStr(QpDecoded(p))
  }

  /** End to end without an encoding: a line the sender dot-stuffed is
      captured as the original line followed by CRLF. */
  lemma CapturePlainUndoesSender(x: string, b64: string -> Option<string>)
    ensures CaptureBodyLine(Stuff(x), NoEncoding, b64) == x + CRLF
  {
    StuffRoundTrip(x);
  }

  /** End to end with quoted-printable: bytes encoded by the reference
      encoder and dot-stuffed come back as those bytes followed by CRLF. */
  lemma CaptureQpUndoesSender(x: string, b64: string -> Option<string>)
    requires Bytes(x) && NUL !in x
    ensures CaptureBodyLine(Stuff(QpEncode(x)), QuotedPrintable, b64) == x + CRLF
  {
    StuffRoundTrip(QpEncode(x));
    QpRoundTrip(x);
    var r := x + CRLF;
    assert NUL !in r;
    NoStopTrunc(r, {NUL});
    assert CStr(r) == r;
  }

  /** With base64, a line the decoder rejects is quoted after an error
      marker; otherwise what was decoded is kept up to its first NUL. */
  lemma CaptureBase64(line: string, b64: string -> Option<string>)
    ensures b64(Unstuff(line)).None? ==>
      CaptureBodyLine(line, Base64, b64) == "\r\n!Base64 decode error: " + Unstuff(line) + CRLF
    ensures b64(Unstuff(line)).Some? && NUL !in b64(Unstuff(line)).value ==>
      CaptureBodyLine(line, Base64, b64) == b64(Unstuff(line)).value
  {
    if b64(Unstuff(line)).Some? && NUL !in b64(Unstuff(line)).value {
      NoStopTrunc(b64(Unstuff(line)).value, {NUL});
    }
  }

  lemma {:induction false} NoStopTrunc(s: string, stops: set<char>)
    requires forall k :: 0 <= k < |s| ==> s[k] !in stops
    ensures TruncAt(s, stops) == s
  {
    if s != [] {
      NoStopTrunc(s[1..], stops);
    }
  }

  // ---------------------------------------------------------------- line reading

  /** sockreadline over the bytes still to arrive: reads until LF (not kept)
      or until `len` - 1 bytes are read, then drops one trailing CR. None
      stands for the connection ending first. Returns the line and what
      remains of the input. */
  function ReadLine(input: string, len: int): Option<(string, string)> {
    if len - 1 <= 0 then Some(([], input))
    else
      var cap := len - 1;
      match IndexOf(Take(input, cap), LF)
      case Some(i) => Some((DropCR(input[..i]), input[i + 1..]))
      case None =>
        if |input| >= cap then Some((DropCR(input[..cap]), input[cap..])) else None
  }

  function DropCR(s: string): (r: string)
    ensures |r| <= |s| && r == s[..|r|]
  {
    if s != [] && s[|s| - 1] == CR then s[..|s| - 1] else s
  }

  /** The line read is at most len - 1 bytes, holds no LF, and loses nothing
      but a CR: either with its LF it is exactly what was consumed, or it is
      the whole len - 1 bytes read. */
  lemma ReadLineBounds(input: string, len: int)
    requires ReadLine(input, len).Some?
    ensures var (line, rest) := ReadLine(input, len).value;
      |line| <= (if len > 1 then len - 1 else 0)
      && LF !in line
      && |rest| <= |input| && rest == input[|input| - |rest|..]
      && (len > 1 ==> |rest| < |input|)
  {
    if len > 1 {
      var cap := len - 1;
      match IndexOf(Take(input, cap), LF)
      case Some(i) =>
      case None =>
        assert forall k :: 0 <= k < cap && k < |input| ==> Take(input, cap)[k] == input[k];
    }
  }

  /** A line shorter than the buffer, sent with CRLF, is read back exactly,
      and the rest of the input is left unread. */
  lemma ReadLineRoundTrip(l: string, rest: string, len: int)
    requires LF !in l && (l == [] || l[|l| - 1] != CR)
    requires |l| + 2 < len
    ensures ReadLine(l + CRLF + rest, len) == Some((l, rest))
  {
    var t := l + CRLF + rest;
    ReadLineAt(t, l + "\r", len);
    assert t[..|l| + 1] == l + "\r";
    assert t[|l| + 2..] == rest;
    assert DropCR(l + "\r") == l;
  }

  /** The same with a lone LF ending the line. */
  lemma ReadLineBareLf(l: string, rest: string, len: int)
    requires LF !in l && (l == [] || l[|l| - 1] != CR)
    requires |l| + 2 < len
    ensures ReadLine(l + "\n" + rest, len) == Some((l, rest))
  {
    var u := l + "\n" + rest;
    ReadLineAt(u, l, len);
    assert u[..|l|] == l;
    assert u[|l| + 1..] == rest;
  }

  /** Where the LF falls inside the first len - 1 bytes, the line read is
      what precedes it. */
  lemma ReadLineAt(t: string, pre: string, len: int)
    requires LF !in pre && |pre| + 1 < len && |pre| < |t|
    requires t[|pre|] == LF && t[..|pre|] == pre
    ensures ReadLine(t, len) == Some((DropCR(pre), t[|pre| + 1..]))
  {
    var w := Take(t, len - 1);
    assert forall k :: 0 <= k <= |pre| ==> w[k] == t[k];
    assert forall k :: 0 <= k < |pre| ==> w[k] == pre[k];
    IndexOfFirst(w, LF, |pre|);
  }

  /** How sockgetrsp judges a reply. `prev3` is the byte at index 3 left in the
      buffer by the previous line: the multi-line test reads buf[3] also when
      the new line is shorter than four bytes. With `rsp` given, the final line
      must start with it, ignoring case. Returns the final line on success. */
  function GetRsp(input: string, rsp: Option<string>, len: int, prev3: char): (r: Option<string>)
    ensures r.Some? ==> r.value != [] && LF !in r.value
    ensures r.Some? && rsp.Some? ==> IPrefix(rsp.value, r.value)
    decreases |input|
  {
    match ReadLine(input, len)
    case None => None
    case Some((line, rest)) =>
      if |line| < 1 then None
      else
        var b3 := if |line| > 3 then line[3] else if |line| == 3 then NUL else prev3;
        if b3 == '-' then
          assert |rest| < |input| by { ReadLineBounds(input, len); }
          GetRsp(rest, rsp, len, b3)
        else if rsp.Some? && !IPrefix(rsp.value, line) then None
        else Some(line)
  }

  /** A well-formed reply line: no LF, not ending in CR, and short enough
      to be read whole into a buffer of `len` bytes. */
  predicate ReplyLine(l: string, len: int) {
    LF !in l && (l == [] || l[|l| - 1] != CR) && |l| + 2 < len
  }

  /** A continuation line "xyz-..." is skipped: the reply is judged by the
      lines that follow it. */
  lemma GetRspSkipsContinuation(l: string, rest: string, rsp: Option<string>, len: int, prev3: char)
    requires ReplyLine(l, len) && |l| > 3 && l[3] == '-'
    ensures GetRsp(l + CRLF + rest, rsp, len, prev3) == GetRsp(rest, rsp, len, '-')
  {
    ReadLineRoundTrip(l, rest, len);
  }

  /** A final line "xyz ..." ends the reply: it is accepted when no reply is
      expected or when it starts with the expected one, ignoring case, and is
      refused otherwise. */
  lemma GetRspFinalLine(l: string, rest: string, rsp: Option<string>, len: int, prev3: char)
    requires ReplyLine(l, len) && |l| > 3 && l[3] != '-'
    ensures GetRsp(l + CRLF + rest, rsp, len, prev3)
      == if rsp.None? || IPrefix(rsp.value, l) then Some(l) else None
  {
    ReadLineRoundTrip(l, rest, len);
  }

  /** An empty line, or the end of the input, fails the reply. */
  lemma GetRspBlankOrClosed(rest: string, rsp: Option<string>, len: int, prev3: char)
    requires 2 < len
    ensures GetRsp(CRLF + rest, rsp, len, prev3) == None
    ensures GetRsp([], rsp, len, prev3) == None
  {
    ReadLineRoundTrip([], rest, len);
    assert [] + CRLF + rest == CRLF + rest;
  }

  /** A line of fewer than three bytes is judged by the byte at index 3 that
      the previous line left in the buffer: after a continuation line, a
      short line such as "25" is skipped as one too. */
  lemma GetRspShortLineAfterContinuation(rest: string, rsp: Option<string>, len: int)
    requires 5 < len
    ensures GetRsp("25" + CRLF + rest, rsp, len, '-') == GetRsp(rest, rsp, len, '-')
    ensures GetRsp("25" + CRLF + rest, None, len, ' ') == Some("25")
  {
    ReadLineRoundTrip("25", rest, len);
  }
}

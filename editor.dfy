/** The message editor side of src/sbbs3/writemsg.cpp: the filter that
    writes an externally edited message text to the message file, the
    line-removal filter, the internal line editor's import of a buffer into
    its line array and its /D and /I edits, and the attribute toggler. */
module Editor {
  import opened Text
  import opened MsgAttr

  const CTRL_A: char := 1 as char
  /** The QuickBBS soft line break. */
  const SOFT_CR: char := 141 as char

  /** The external editor's options, each already combined with the user
      having an external editor selected. */
  datatype EditorOptions = EditorOptions(quickBbs: bool, expandLf: bool, stripKludge: bool)

  /** buf[k] of a NUL-terminated buffer holding `b`. */
  function At(b: string, k: nat): char {
    if k < |b| then b[k] else NUL
  }

  /** A line starting "---" and a space, tab or CR: a tear line. */
  predicate TearAt(b: string, l: nat) {
    (l == 0 || At(b, l - 1) == LF)
    && At(b, l) == '-' && At(b, l + 1) == '-' && At(b, l + 2) == '-'
    && (At(b, l + 3) == ' ' || At(b, l + 3) == TAB || At(b, l + 3) == CR)
  }

  // ---------------------------------------------------------------- process_edited_text

  /** What the filter gives: the text written, the line count, the buffer
      after its in-place patches, and whether it stopped at the line limit
      with text left over. */
  datatype Edited = Edited(text: string, lines: nat, buf: string, full: bool)

  function Then(pre: string, e: Edited): Edited {
    e.(text := pre + e.text)
  }

  /** One pass of the filter's loop at buffer index `l` with `i` lines
      written: it stops, or writes `out` and goes on at `next` with `lines`
      lines and the buffer `buf` (writemsg.cpp:113-145). A tear line is
      patched in the buffer, so the character after its first '-' is
      written as '+'. */
  datatype Move = Stop(full: bool) | Go(out: string, next: nat, lines: nat, buf: string)

  function Step(b: string, l: nat, i: nat, o: EditorOptions, tear: bool, maxLines: nat): (m: Move)
    requires l <= |b|
    ensures m.Stop? <==> At(b, l) == NUL || i >= maxLines || (o.stripKludge && b[l] == CTRL_A && !WithLf(b, l))
    ensures m.Stop? ==> (m.full <==> At(b, l) != NUL && i >= maxLines)
    ensures m.Go? ==> l < m.next <= |m.buf| == |b| && m.lines == i + multiset(m.out)[LF] && m.lines <= maxLines
    ensures m.Go? && o.stripKludge ==> CTRL_A !in m.out
  {
    if At(b, l) == NUL || i >= maxLines then Stop(At(b, l) != NUL)
    else if o.quickBbs && b[l] == SOFT_CR then Go(CRLF, l + 1, i + 1, b)
    else if o.expandLf && b[l] == LF && (l == 0 || b[l - 1] != CR) then Go(CRLF, l + 1, i + 1, b)
    else if o.stripKludge && b[l] == CTRL_A then
      var e := StopFrom(b, {LF, NUL}, l);
      if e == |b| || b[e] == NUL then Stop(false) else Go([], e + 1, i, b)
    else
      var b' := if tear && TearAt(b, l) then b[l + 1 := '+'] else b;
      Go([b[l]], l + 1, if b[l] == LF then i + 1 else i, b')
  }

  /** With LF expansion a step writes no bare line feed, and one that ends
      after a CR of the buffer has written that CR last. */
  lemma StepExpandsLf(b: string, l: nat, i: nat, o: EditorOptions, tear: bool, maxLines: nat)
    requires l <= |b| && o.expandLf
    ensures var m := Step(b, l, i, o, tear, maxLines);
      m.Go? ==>
        LfsAfterCr(m.out) && (m.out != [] && m.out[0] == LF ==> 0 < l && b[l - 1] == CR)
        && (m.buf[m.next - 1] == CR ==> m.out != [] && m.out[|m.out| - 1] == CR)
  {
    var m := Step(b, l, i, o, tear, maxLines);
    if m.Go? && m.out == CRLF {
      assert m.buf[m.next - 1] == b[l] != CR;
    } else if m.Go? && m.out == [] {
      assert m.buf[m.next - 1] == LF;
    }
  }

  /** A kludge line at `l` ends in a line feed. */
  predicate WithLf(b: string, l: nat)
    requires l <= |b|
  {
    var e := StopFrom(b, {LF, NUL}, l);
    e < |b| && b[e] == LF
  }

  /** The filter from buffer index `l` on, with `i` lines written so far. */
  function EditFrom(b: string, l: nat, i: nat, o: EditorOptions, tear: bool, maxLines: nat): (e: Edited)
    requires l <= |b|
    decreases |b| - l
  {
    match Step(b, l, i, o, tear, maxLines)
    case Stop(full) => Edited([], i, b, full)
    case Go(out, next, lines, b') => Then(out, EditFrom(b', next, lines, o, tear, maxLines))
  }

  lemma ThenThen(a: string, c: string, e: Edited)
    ensures Then(a, Then(c, e)) == Then(a + c, e)
  {
    Assoc(a, c, e.text);
  }

  function Edit(b: string, o: EditorOptions, tear: bool, maxLines: nat): Edited {
    EditFrom(b, 0, 0, o, tear, maxLines)
  }

  /** process_edited_text: `buf` holds the text, NUL-terminated or filling
      the array; `tear` is set outside e-mail, netmail and edit modes. The
      number of bytes written is |text|. */
  method ProcessEditedText(buf: array<char>, o: EditorOptions, tear: bool, maxLines: nat)
    returns (text: string, lines: nat, full: bool)
    modifies buf
    ensures Edit(old(buf[..]), o, tear, maxLines) == Edited(text, lines, buf[..], full)
  {
    ghost var b0 := buf[..];
    var l: nat, i: nat := 0, 0;
    text := [];
    while l < buf.Length && buf[l] != NUL && i < maxLines
      invariant l <= buf.Length
      invariant Edit(b0, o, tear, maxLines) == Then(text, EditFrom(buf[..], l, i, o, tear, maxLines))
      decreases buf.Length - l
    {
      ghost var b, l0, i0, t0 := buf[..], l, i, text;
      var piece;
      piece, l, i := FilterOnce(buf, l, i, o, tear, maxLines);
      if piece.Some? {
        text := text + piece.value;
        EditAdvance(b, l0, i0, o, tear, maxLines, t0, piece.value, l, i, buf[..]);
      } else {
        EditStops(b, l0, i0, o, tear, maxLines, false);
        EditStops(b, l, i, o, tear, maxLines, false);
      }
    }
    lines := i;
    full := l < buf.Length && buf[l] != NUL;
    EditStops(buf[..], l, i, o, tear, maxLines, full);
  }

  /** Where a step stops, the filter writes nothing more. */
  lemma EditStops(b: string, l: nat, i: nat, o: EditorOptions, tear: bool, maxLines: nat, full: bool)
    requires l <= |b| && Step(b, l, i, o, tear, maxLines) == Stop(full)
    ensures EditFrom(b, l, i, o, tear, maxLines) == Edited([], i, b, full)
  {
  }

  /** One pass of the filter's loop (writemsg.cpp:114-144): the text it
      writes, or None when a kludge line runs to the end of the text and
      `l` is left at that end. */
  method FilterOnce(buf: array<char>, l0: nat, i0: nat, o: EditorOptions, tear: bool, maxLines: nat)
    returns (piece: Option<string>, l: nat, i: nat)
    requires l0 < buf.Length && buf[l0] != NUL && i0 < maxLines
    modifies buf
    ensures l0 < l <= buf.Length
    ensures piece.Some? ==> Step(old(buf[..]), l0, i0, o, tear, maxLines) == Go(piece.value, l, i, buf[..])
    ensures piece.None? ==>
      (Step(old(buf[..]), l0, i0, o, tear, maxLines) == Stop(false)
       && buf[..] == old(buf[..]) && i == i0 && l <= buf.Length && At(buf[..], l) == NUL)
  {
    ghost var b := buf[..];
    l, i := l0, i0;
    var c := buf[l];
    if o.quickBbs && c == SOFT_CR {
      piece, i, l := Some(CRLF), i + 1, l + 1;
      StepLineBreak(b, l0, i0, o, tear, maxLines);
    } else if o.expandLf && c == LF && (l == 0 || buf[l - 1] != CR) {
      piece, i, l := Some(CRLF), i + 1, l + 1;
      StepLineBreak(b, l0, i0, o, tear, maxLines);
    } else if o.stripKludge && c == CTRL_A {
      l := SkipKludge(buf, l);
      StepKludge(b, l0, i0, o, tear, maxLines);
      if l < buf.Length && buf[l] == LF {
        piece, l := Some([]), l + 1;
      } else {
        piece := None;
      }
    } else {
      var patch := tear && TearAt(buf[..], l);
      if patch {
        buf[l + 1] := '+';
      }
      piece := Some([c]);
      if c == LF {
        i := i + 1;
      }
      l := l + 1;
      StepCopy(b, l0, i0, o, tear, maxLines);
      assert buf[..] == if patch then b[l0 + 1 := '+'] else b;
    }
  }

  /** The soft CR, or a bare LF with expansion, becomes CR-LF. */
  lemma StepLineBreak(b: string, l: nat, i: nat, o: EditorOptions, tear: bool, maxLines: nat)
    requires l < |b| && b[l] != NUL && i < maxLines
    requires (o.quickBbs && b[l] == SOFT_CR) || (o.expandLf && b[l] == LF && (l == 0 || b[l - 1] != CR))
    ensures Step(b, l, i, o, tear, maxLines) == Go(CRLF, l + 1, i + 1, b)
  {
  }

  /** A kludge line is passed over up to its line feed. */
  lemma StepKludge(b: string, l: nat, i: nat, o: EditorOptions, tear: bool, maxLines: nat)
    requires l < |b| && i < maxLines && o.stripKludge && b[l] == CTRL_A
    requires !(o.quickBbs && b[l] == SOFT_CR) && !(o.expandLf && b[l] == LF && (l == 0 || b[l - 1] != CR))
    ensures var e := StopFrom(b, {LF, NUL}, l);
      Step(b, l, i, o, tear, maxLines) == if e < |b| && b[e] == LF then Go([], e + 1, i, b) else Stop(false)
  {
  }

  /** Any other character is copied. */
  lemma StepCopy(b: string, l: nat, i: nat, o: EditorOptions, tear: bool, maxLines: nat)
    requires l < |b| && b[l] != NUL && i < maxLines
    requires !(o.quickBbs && b[l] == SOFT_CR) && !(o.expandLf && b[l] == LF && (l == 0 || b[l - 1] != CR))
      && !(o.stripKludge && b[l] == CTRL_A)
    ensures Step(b, l, i, o, tear, maxLines)
      == Go([b[l]], l + 1, if b[l] == LF then i + 1 else i, if tear && TearAt(b, l) then b[l + 1 := '+'] else b)
  {
  }

  /** The inner loop that skips a kludge line up to its line feed or the
      buffer's end (writemsg.cpp:130-131). */
  method SkipKludge(buf: array<char>, l0: nat) returns (l: nat)
    requires l0 <= buf.Length
    ensures l == StopFrom(buf[..], {LF, NUL}, l0)
  {
    l := l0;
    while l < buf.Length && buf[l] != NUL && buf[l] != LF
      invariant l0 <= l <= buf.Length
      invariant StopFrom(buf[..], {LF, NUL}, l0) == StopFrom(buf[..], {LF, NUL}, l)
      decreases buf.Length - l
    {
      l := l + 1;
    }
  }

  /** A step that writes `piece` moves the filter on. */
  lemma EditAdvance(b: string, l: nat, i: nat, o: EditorOptions, tear: bool, maxLines: nat,
                    t: string, piece: string, next: nat, lines: nat, b': string)
    requires l <= |b| && Step(b, l, i, o, tear, maxLines) == Go(piece, next, lines, b')
    ensures next <= |b'|
    ensures Then(t, EditFrom(b, l, i, o, tear, maxLines)) == Then(t + piece, EditFrom(b', next, lines, o, tear, maxLines))
  {
    ThenThen(t, piece, EditFrom(b', next, lines, o, tear, maxLines));
  }

  /** The line count is the number of line feeds written and never passes
      the limit. */
  lemma {:induction false} EditCounts(b: string, l: nat, i: nat, o: EditorOptions, tear: bool, maxLines: nat)
    requires l <= |b| && i <= maxLines
    ensures var e := EditFrom(b, l, i, o, tear, maxLines);
      e.lines == i + multiset(e.text)[LF] && e.lines <= maxLines
    decreases |b| - l
  {
    match Step(b, l, i, o, tear, maxLines)
    case Stop(_) =>
    case Go(out, next, lines, b') => EditCounts(b', next, lines, o, tear, maxLines);
  }

  /** No character the filter acts on: every other byte passes unchanged. */
  predicate Inert(b: string, o: EditorOptions) {
    forall k :: 0 <= k < |b| ==>
      b[k] != NUL
      && (o.quickBbs ==> b[k] != SOFT_CR)
      && (o.stripKludge ==> b[k] != CTRL_A)
      && (o.expandLf && b[k] == LF ==> k > 0 && b[k - 1] == CR)
  }

  /** Without tear-line protection, a text the options leave alone and with
      fewer line feeds than the limit is written exactly as it is. */
  lemma {:induction false} EditTransparent(b: string, l: nat, i: nat, o: EditorOptions, maxLines: nat)
    requires l <= |b| && Inert(b, o) && i + multiset(b[l..])[LF] < maxLines
    ensures EditFrom(b, l, i, o, false, maxLines) == Edited(b[l..], i + multiset(b[l..])[LF], b, false)
    decreases |b| - l
  {
    if l < |b| {
      assert b[l..] == [b[l]] + b[l + 1..];
      var i' := if b[l] == LF then i + 1 else i;
      assert Step(b, l, i, o, false, maxLines) == Go([b[l]], l + 1, i', b);
      EditTransparent(b, l + 1, i', o, maxLines);
    }
  }

  /** With kludge stripping, no Ctrl-A reaches the message. */
  lemma {:induction false} EditStripsKludges(b: string, l: nat, i: nat, o: EditorOptions, tear: bool, maxLines: nat)
    requires l <= |b| && o.stripKludge
    ensures CTRL_A !in EditFrom(b, l, i, o, tear, maxLines).text
    decreases |b| - l
  {
    match Step(b, l, i, o, tear, maxLines)
    case Stop(_) =>
    case Go(out, next, lines, b') => EditStripsKludges(b', next, lines, o, tear, maxLines);
  }

  /** Every line feed of `t` after its first character follows a CR. */
  predicate LfsAfterCr(t: string) {
    forall k :: 0 < k < |t| && t[k] == LF ==> t[k - 1] == CR
  }

  /** Joining the text of one step to the rest keeps every line feed after
      a CR; `p` is what the step promises about a leading line feed, `c`
      whether the rest may start with one. */
  lemma LfsJoin(a: string, r: string, p: bool, c: bool)
    requires LfsAfterCr(a) && LfsAfterCr(r)
    requires a != [] && a[0] == LF ==> p
    requires r != [] && r[0] == LF ==> c
    requires c ==> a != [] && a[|a| - 1] == CR
    ensures LfsAfterCr(a + r) && (a + r != [] && (a + r)[0] == LF ==> p)
  {
    var t := a + r;
    forall k | 0 < k < |t| && t[k] == LF ensures t[k - 1] == CR {
      if k > |a| {
        assert t[k] == r[k - |a|] && t[k - 1] == r[k - 1 - |a|];
      } else if k == |a| {
        assert t[k] == r[0] && t[k - 1] == a[|a| - 1];
      } else {
        assert t[k] == a[k] && t[k - 1] == a[k - 1];
      }
    }
    if a == [] {
      assert t == r;
    }
  }

  /** With LF expansion every line feed written follows a CR: the message
      has CRLF line ends throughout. */
  lemma {:induction false} EditExpandsLf(b: string, l: nat, i: nat, o: EditorOptions, tear: bool, maxLines: nat)
    requires l <= |b| && o.expandLf
    ensures var t := EditFrom(b, l, i, o, tear, maxLines).text;
      LfsAfterCr(t) && (t != [] && t[0] == LF ==> 0 < l && b[l - 1] == CR)
    decreases |b| - l
  {
    match Step(b, l, i, o, tear, maxLines)
    case Stop(_) =>
    case Go(out, next, lines, b') =>
      StepExpandsLf(b, l, i, o, tear, maxLines);
      EditExpandsLf(b', next, lines, o, tear, maxLines);
      var r := EditFrom(b', next, lines, o, tear, maxLines).text;
      LfsJoin(out, r, 0 < l && b[l - 1] == CR, b'[next - 1] == CR);
  }

  /** A tear line reaches the message as "-+-": its second character is a
      '+'. */
  lemma EditGuardsTearLine(b: string, l: nat, i: nat, o: EditorOptions, maxLines: nat)
    requires l <= |b| && TearAt(b, l) && i < maxLines
    ensures var t := EditFrom(b, l, i, o, true, maxLines).text; |t| >= 2 && t[..2] == "-+"
  {
    var b' := b[l + 1 := '+'];
    assert Step(b, l, i, o, true, maxLines) == Go("-", l + 1, i, b');
    assert Step(b', l + 1, i, o, true, maxLines) == Go("+", l + 2, i, b');
  }

  // ---------------------------------------------------------------- removeline

  /** The index just past the first `skip` lines from `l`, `i` lines
      having been passed already. */
  function SkipLines(b: string, l: nat, i: nat, skip: nat): (n: nat)
    requires l <= |b|
    ensures l <= n <= |b|
    ensures n == |b| || n == l || b[n - 1] == LF
    decreases |b| - l
  {
    if l == |b| || i >= skip then l
    else SkipLines(b, l + 1, if b[l] == LF then i + 1 else i, skip)
  }

  /** The index just past the line feed ending the line at `l`, or past the
      end of the buffer when the line has none. */
  function LineEnd(b: string, l: nat): (n: nat)
    requires l <= |b|
    ensures l < n <= |b| + 1
    ensures n <= |b| ==> b[n - 1] == LF
    decreases |b| - l
  {
    if l == |b| then l + 1 else if b[l] == LF then l + 1 else LineEnd(b, l + 1)
  }

  /** The index past a group of `n` lines from `l`. */
  function GroupEnd(b: string, l: nat, n: nat): (g: nat)
    requires l <= |b| + 1
    ensures l <= g <= |b| + 1
    ensures n > 0 && l < |b| ==> l < g
    ensures g == l || g > |b| || b[g - 1] == LF
    decreases n
  {
    if n == 0 || l >= |b| then l else GroupEnd(b, LineEnd(b, l), n - 1)
  }

  function Min(a: nat, b: nat): nat {
    if a < b then a else b
  }

  /** The groups of `num` lines from `l` on, those starting with `str2`
      left out. */
  function Kept(b: string, l: nat, str2: string, num: nat): (r: string)
    requires l <= |b| + 1 && num > 0
    decreases |b| + 1 - l
  {
    if l >= |b| then []
    else
      var g := GroupEnd(b, l, num);
      (if str2 <= b[l..] then [] else b[l..Min(g, |b|)]) + Kept(b, g, str2, num)
  }

  /** removeline: the first `skip` lines, then the groups of `num` lines
      that do not start with `str2` (writemsg.cpp:669-687). */
  function Removed(b: string, str2: string, num: nat, skip: nat): string
    requires num > 0
  {
    var s := SkipLines(b, 0, 0, skip);
    b[..s] + Kept(b, s, str2, num)
  }

  /** The line loops of removeline, copying only bytes of the file. */
  method RemoveLine(buf: string, str2: string, num: nat, skip: nat) returns (out: string)
    requires num > 0
    ensures out == Removed(buf, str2, num, skip)
  {
    var l: nat, i: nat := 0, 0;
    out := [];
    while l < |buf| && i < skip
      invariant l <= |buf| && out == buf[..l]
      invariant SkipLines(buf, l, i, skip) == SkipLines(buf, 0, 0, skip)
      decreases |buf| - l
    {
      out := out + [buf[l]];
      if buf[l] == LF {
        i := i + 1;
      }
      l := l + 1;
    }
    assert l == SkipLines(buf, 0, 0, skip);
    ghost var r := Removed(buf, str2, num, skip);
    while l < |buf|
      invariant l <= |buf| + 1
      invariant r == out + Kept(buf, l, str2, num)
      decreases |buf| + 1 - l
    {
      ghost var l0, out0 := l, out;
      if str2 <= buf[l..] {
        l := SkipGroup(buf, l, num);
        ghost var k := Kept(buf, l, str2, num);
        assert Kept(buf, l0, str2, num) == [] + k;
        assert [] + k == k;
        assert r == out + k;
      } else {
        var piece;
        piece, l := CopyGroup(buf, l, num);
        out := out + piece;
        ghost var k := Kept(buf, l, str2, num);
        assert Kept(buf, l0, str2, num) == piece + k;
        Assoc(out0, piece, k);
        assert r == out + k;
      }
    }
  }

  /** Passing over a group of `num` lines that starts with the text to
      remove (writemsg.cpp:675-680). */
  method SkipGroup(buf: string, l0: nat, num: nat) returns (l: nat)
    requires l0 < |buf| && num > 0
    ensures l == GroupEnd(buf, l0, num)
  {
    l := l0;
    var i := 0;
    while i < num && l < |buf|
      invariant l0 <= l <= |buf| + 1 && i <= num
      invariant GroupEnd(buf, l, num - i) == GroupEnd(buf, l0, num)
      decreases num - i
    {
      ghost var lineStart := l;
      while l < |buf| && buf[l] != LF
        invariant lineStart <= l <= |buf|
        invariant LineEnd(buf, l) == LineEnd(buf, lineStart)
        decreases |buf| - l
      {
        l := l + 1;
      }
      l := l + 1;
      i := i + 1;
    }
  }

  /** Copying a group of `num` lines (writemsg.cpp:681-686); a last line
      without a line feed is copied up to the buffer's end. */
  method CopyGroup(buf: string, l0: nat, num: nat) returns (piece: string, l: nat)
    requires l0 < |buf| && num > 0
    ensures l == GroupEnd(buf, l0, num)
    ensures piece == buf[l0..Min(l, |buf|)]
  {
    l := l0;
    piece := [];
    var i := 0;
    while i < num && l < |buf|
      invariant l0 <= l <= |buf| + 1 && i <= num
      invariant GroupEnd(buf, l, num - i) == GroupEnd(buf, l0, num)
      invariant piece == buf[l0..Min(l, |buf|)]
      decreases num - i
    {
      ghost var start := l;
      var line;
      line, l := CopyLine(buf, l);
      assert buf[l0..Min(l, |buf|)] == buf[l0..start] + buf[start..Min(l, |buf|)];
      piece := piece + line;
      i := i + 1;
    }
  }

  /** One line of a group, with its line feed when it has one. */
  method CopyLine(buf: string, l0: nat) returns (line: string, l: nat)
    requires l0 < |buf|
    ensures l == LineEnd(buf, l0)
    ensures line == buf[l0..Min(l, |buf|)]
  {
    l := l0;
    line := [];
    while l < |buf| && buf[l] != LF
      invariant l0 <= l <= |buf|
      invariant LineEnd(buf, l) == LineEnd(buf, l0)
      invariant line == buf[l0..l]
      decreases |buf| - l
    {
      line := line + [buf[l]];
      l := l + 1;
    }
    if l < |buf| {
      line := line + [buf[l]];
      assert line == buf[l0..l + 1];
    } else {
      assert Min(l + 1, |buf|) == l;
    }
    l := l + 1;
  }

  /** removeline as written: copying a line that has no line feed also
      writes the byte just past the buffer, here `past`. */
  function KeptAsWritten(b: string, l: nat, str2: string, num: nat, past: char): string
    requires l <= |b| + 1 && num > 0
    decreases |b| + 1 - l
  {
    if l >= |b| then []
    else
      var g := GroupEnd(b, l, num);
      (if str2 <= b[l..] then [] else b[l..Min(g, |b|)] + (if g > |b| then [past] else []))
      + KeptAsWritten(b, g, str2, num, past)
  }

  function RemovedAsWritten(b: string, str2: string, num: nat, skip: nat, past: char): string
    requires num > 0
  {
    var s := SkipLines(b, 0, 0, skip);
    b[..s] + KeptAsWritten(b, s, str2, num, past)
  }

  /** A one-line file without a line feed comes out one byte longer. */
  lemma RemoveLineOverrun(past: char)
    ensures RemovedAsWritten("a", "b", 1, 0, past) == ['a', past]
    ensures Removed("a", "b", 1, 0) == "a"
  {
    assert GroupEnd("a", 0, 1) == 2;
    assert Kept("a", 2, "b", 1) == [];
    assert KeptAsWritten("a", 2, "b", 1, past) == [];
    assert !("b" <= "a");
  }

  /** A line start: the beginning of the buffer or just after a line feed. */
  predicate LineStart(b: string, k: nat) {
    k <= |b| && (k == 0 || b[k - 1] == LF)
  }

  /** When no line after the skipped ones starts with `str2`, the file is
      unchanged. */
  lemma RemoveKeepsUnmatched(b: string, str2: string, num: nat, skip: nat)
    requires num > 0
    requires forall k :: SkipLines(b, 0, 0, skip) <= k < |b| && LineStart(b, k) ==> !(str2 <= b[k..])
    ensures Removed(b, str2, num, skip) == b
  {
    var s := SkipLines(b, 0, 0, skip);
    KeptAllFrom(b, s, str2, num);
  }

  lemma {:induction false} KeptAllFrom(b: string, l: nat, str2: string, num: nat)
    requires l <= |b| + 1 && num > 0 && (l > |b| || l == 0 || b[l - 1] == LF || l == |b|)
    requires forall k :: l <= k < |b| && LineStart(b, k) ==> !(str2 <= b[k..])
    ensures l <= |b| ==> Kept(b, l, str2, num) == b[l..]
    ensures l > |b| ==> Kept(b, l, str2, num) == []
    decreases |b| + 1 - l
  {
    if l < |b| {
      var g := GroupEnd(b, l, num);
      assert LineStart(b, l);
      KeptAllFrom(b, g, str2, num);
      if g <= |b| {
        assert b[l..] == b[l..g] + b[g..];
      } else {
        assert b[l..Min(g, |b|)] == b[l..];
      }
    }
  }

  /** An empty `str2` starts every line: only the skipped lines remain. */
  lemma {:induction false} RemoveAllMatching(b: string, l: nat, num: nat)
    requires l <= |b| + 1 && num > 0
    ensures Kept(b, l, [], num) == []
    decreases |b| + 1 - l
  {
    if l < |b| {
      RemoveAllMatching(b, GroupEnd(b, l, num), num);
    }
  }

  // ---------------------------------------------------------------- the line editor

  /** The longest line the editor holds. */
  const LINE_WIDTH: nat := 79

  /** The column a tab at column `i` moves to: the next multiple of 8, or
      the end of the line. */
  function TabStop(i: nat): (c: nat)
    requires i < LINE_WIDTH
    ensures i < c <= LINE_WIDTH && (c == LINE_WIDTH || c % 8 == 0)
    ensures forall k :: i < k < c ==> k % 8 != 0
  {
    if (i / 8 + 1) * 8 < LINE_WIDTH then (i / 8 + 1) * 8 else LINE_WIDTH
  }

  function Spaces(n: nat): (s: string)
    ensures |s| == n && forall k :: 0 <= k < n ==> s[k] == ' '
  {
    if n == 0 then [] else Spaces(n - 1) + [' ']
  }

  /** A line as the editor holds it. */
  predicate EditorLine(s: string) {
    |s| <= LINE_WIDTH && CR !in s && TAB !in s
  }

  /** One line of the import from index `l`, with `col` read so far: the
      line, and the index the next one starts at (writemsg.cpp:725-746). A
      CR ends the line and the byte after it is skipped; a full line also
      skips a CR-LF right after it. */
  function LineFrom(b: string, l: nat, col: string): (r: (string, nat))
    requires l <= |b| && EditorLine(col)
    ensures EditorLine(r.0) && l <= r.1 <= |b| + 1
    ensures |col| < LINE_WIDTH && l < |b| ==> l < r.1
    decreases |b| - l
  {
    if |col| == LINE_WIDTH || l == |b| then (col, if |col| == LINE_WIDTH && At(b, l) == CR then l + 2 else l)
    else if b[l] == CR then (col, l + 2)
    else if b[l] == TAB then LineFrom(b, l + 1, col + Spaces(TabStop(|col|) - |col|))
    else LineFrom(b, l + 1, col + [b[l]])
  }

  /** The lines read from `l` on, with room for `room` more. */
  function ImportFrom(b: string, l: nat, room: nat): (r: seq<string>)
    requires l <= |b| + 1
    ensures |r| <= room && forall k :: 0 <= k < |r| ==> EditorLine(r[k])
    decreases |b| + 1 - l
  {
    if l >= |b| || room == 0 then []
    else
      var (line, next) := LineFrom(b, l, []);
      [line] + ImportFrom(b, next, room - 1)
  }

  /** The lines msgeditor reads from a buffer of text. */
  function Imported(buf: string, maxLines: nat): (r: seq<string>)
    ensures |r| <= maxLines && forall k :: 0 <= k < |r| ==> EditorLine(r[k])
  {
    ImportFrom(CStr(buf), 0, maxLines)
  }

  /** A line of text without CR or tab, followed by CR-LF, is read back as
      it is. */
  lemma {:induction false} LineBack(b: string, l: nat, col: string, w: string)
    requires EditorLine(col) && CR !in w && TAB !in w && |col| + |w| <= LINE_WIDTH
    requires l + |w| + 2 <= |b| && b[l..l + |w|] == w && b[l + |w|] == CR
    ensures LineFrom(b, l, col) == (col + w, l + |w| + 2)
    decreases |w|
  {
    if w == [] {
      assert col + w == col;
    } else {
      assert b[l] == w[0];
      assert b[l + 1..l + 1 + |w[1..]|] == w[1..];
      LineBack(b, l + 1, col + [w[0]], w[1..]);
      assert col + [w[0]] + w[1..] == col + w;
    }
  }

  /** The text the editor saves: `top`, then each line and CR-LF
      (writemsg.cpp:974-979). */
  function Saved(top: string, ls: seq<string>): (r: string)
    ensures |top| <= |r|
    decreases |ls|
  {
    if ls == [] then top else Saved(top + ls[0] + CRLF, ls[1..])
  }

  /** Saving and importing again gives the same lines. */
  lemma {:induction false} ImportSaved(p: string, ls: seq<string>, room: nat)
    requires |ls| <= room
    requires forall k :: 0 <= k < |ls| ==> EditorLine(ls[k]) && NUL !in ls[k]
    ensures ImportFrom(Saved(p, ls), |p|, room) == ls
    decreases |ls|
  {
    var b := Saved(p, ls);
    if ls != [] {
      var w := ls[0];
      var p' := p + w + CRLF;
      SavedHead(p, ls);
      LineBack(b, |p|, [], w);
      assert [] + w == w;
      ImportSaved(p', ls[1..], room - 1);
      assert ImportFrom(b, |p|, room) == [w] + ImportFrom(b, |p'|, room - 1);
      assert ls == [w] + ls[1..];
    } else {
      assert ImportFrom(b, |p|, room) == [];
    }
  }

  /** The saved text holds the first line and its CR right after `p`. */
  lemma SavedHead(p: string, ls: seq<string>)
    requires ls != []
    ensures var b := Saved(p, ls); var w := ls[0];
      b == Saved(p + w + CRLF, ls[1..])
      && |p| + |w| + 2 <= |b| && b[|p|..|p| + |w|] == w && b[|p| + |w|] == CR
  {
    var w := ls[0];
    var p' := p + w + CRLF;
    var b := Saved(p, ls);
    SavedPrefix(p', ls[1..]);
    assert b[..|p'|] == p';
    assert b[|p|..|p| + |w|] == p'[|p|..|p| + |w|] == w;
    assert b[|p| + |w|] == p'[|p| + |w|] == CR;
  }

  lemma {:induction false} SavedPrefix(p: string, ls: seq<string>)
    ensures |p| <= |Saved(p, ls)| && Saved(p, ls)[..|p|] == p
    ensures ls != [] ==> |p| < |Saved(p, ls)|
    decreases |ls|
  {
    if ls != [] {
      var p' := p + ls[0] + CRLF;
      SavedPrefix(p', ls[1..]);
      assert p'[..|p|] == p;
    }
  }

  /** Text without NUL is what the import sees. */
  lemma {:induction false} SavedNoNul(p: string, ls: seq<string>)
    requires NUL !in p && forall k :: 0 <= k < |ls| ==> NUL !in ls[k]
    ensures NUL !in Saved(p, ls)
    decreases |ls|
  {
    if ls != [] {
      SavedNoNul(p + ls[0] + CRLF, ls[1..]);
    }
  }

  /** The editor's lines are read back from the saved message body. */
  lemma ImportedSaved(ls: seq<string>, maxLines: nat)
    requires |ls| <= maxLines
    requires forall k :: 0 <= k < |ls| ==> EditorLine(ls[k]) && NUL !in ls[k]
    ensures Imported(Saved([], ls), maxLines) == ls
  {
    SavedNoNul([], ls);
    TruncAtNone(Saved([], ls), {NUL});
    ImportSaved([], ls, maxLines);
  }

  /** The line a /D or /I command names: numbers count from 1, and no
      number (or 0) means the last line; None when out of range
      (writemsg.cpp:825-829, 846-850). */
  function Target(arg: string, n: nat): (r: Option<nat>)
    ensures r.Some? ==> r.value < n
    ensures Atoi(arg) == 0 && n > 0 ==> r == Some(n - 1)
    ensures 1 <= Atoi(arg) <= n ==> r == Some(Atoi(arg) - 1)
    ensures (Atoi(arg) < 0 || Atoi(arg) > n) ==> r.None?
  {
    var i := Atoi(arg) - 1;
    var j := if i == -1 then n - 1 else i;
    if 0 <= j < n then Some(j) else None
  }

  /** The lines without line `j`, the rest in order. */
  function Without(ls: seq<string>, j: nat): (r: seq<string>)
    requires j < |ls|
    ensures |r| == |ls| - 1
    ensures forall k :: 0 <= k < j ==> r[k] == ls[k]
    ensures forall k :: j <= k < |r| ==> r[k] == ls[k + 1]
  {
    ls[..j] + ls[j + 1..]
  }

  /** The lines with an empty line before line `j`. */
  function Opened(ls: seq<string>, j: nat): (r: seq<string>)
    requires j <= |ls|
    ensures |r| == |ls| + 1 && r[j] == []
    ensures forall k :: 0 <= k < j ==> r[k] == ls[k]
    ensures forall k :: j < k < |r| ==> r[k] == ls[k - 1]
  {
    ls[..j] + [[]] + ls[j..]
  }

  /** /D undoes /I. */
  lemma DeleteUndoesInsert(ls: seq<string>, j: nat)
    requires j <= |ls|
    ensures Without(Opened(ls, j), j) == ls
  {
    var r := Without(Opened(ls, j), j);
    assert forall k :: 0 <= k < |ls| ==> r[k] == ls[k];
  }

  /** /D removes one line and nothing else. */
  lemma DeleteRemovesOne(ls: seq<string>, j: nat)
    requires j < |ls|
    ensures multiset(Without(ls, j)) + multiset{ls[j]} == multiset(ls)
  {
    assert ls == ls[..j] + [ls[j]] + ls[j + 1..];
  }

  /** The editor's state seen from outside: its lines and the line being
      entered. */
  datatype EditorState = EditorState(lines: seq<string>, cursor: nat)

  /** /D (writemsg.cpp:819-840): with no lines nothing happens; an index
      out of range leaves the lines as they are and gives an error. */
  function AfterDelete(s: EditorState, arg: string): (r: (EditorState, bool))
    ensures r.1 <==> s.lines == [] || Target(arg, |s.lines|).Some?
    ensures !r.1 || s.lines == [] ==> r.0 == s
    ensures r.0.cursor <= s.cursor && |r.0.lines| <= |s.lines|
  {
    if s.lines == [] then (s, true)
    else match Target(arg, |s.lines|)
      case None => (s, false)
      case Some(j) =>
        var ls := Without(s.lines, j);
        (EditorState(ls, Min(s.cursor, |ls|)), true)
  }

  /** /I (writemsg.cpp:841-865), refused when the message is full. The
      cursor moves past the last line. */
  function AfterInsert(s: EditorState, arg: string, maxLines: nat): (r: (EditorState, bool))
    ensures r.1 <==> |s.lines| >= maxLines || s.lines == [] || Target(arg, |s.lines|).Some?
    ensures |r.0.lines| <= maxLines || r.0 == s
  {
    if |s.lines| >= maxLines || s.lines == [] then (s, true)
    else match Target(arg, |s.lines|)
      case None => (s, false)
      case Some(j) =>
        var ls := Opened(s.lines, j);
        (EditorState(ls, |ls|), true)
  }

  /** /I as written: the guard tests the cursor, not the line count. */
  function AfterInsertAsWritten(s: EditorState, arg: string, maxLines: nat): (r: (EditorState, bool))
  {
    if s.cursor == maxLines || s.lines == [] then (s, true)
    else match Target(arg, |s.lines|)
      case None => (s, false)
      case Some(j) =>
        var ls := Opened(s.lines, j);
        (EditorState(ls, |ls|), true)
  }

  /** The line index after a line is entered, as written: it advances
      unless it is at the limit, and the up arrow takes two off it
      (`line-=2`), at the limit as well. */
  function EnterLineAsWritten(cursor: nat, up: bool, maxLines: nat): int {
    var c := if cursor < maxLines then cursor + 1 else cursor;
    if up then c - 2 else c
  }

  /** Entering a line of text at the cursor (writemsg.cpp:954-966): it
      replaces the line there or adds one; at the limit it is dropped. The
      up arrow moves back to the line before the one entered, and from the
      limit two lines back; an index that would go below the first line
      stays at the first. */
  function AfterEnter(s: EditorState, text: string, up: bool, maxLines: nat): (r: EditorState)
    requires s.cursor <= |s.lines| <= maxLines
    requires up ==> 0 < s.cursor
    ensures r.cursor <= |r.lines| <= maxLines
    ensures s.cursor == maxLines ==> r.lines == s.lines
    ensures s.cursor < maxLines ==>
      |r.lines| == (if s.cursor == |s.lines| then |s.lines| + 1 else |s.lines|) && r.lines[s.cursor] == text
      && forall k :: 0 <= k < |s.lines| && k != s.cursor ==> r.lines[k] == s.lines[k]
    ensures !up ==> r.cursor == (if s.cursor < maxLines then s.cursor + 1 else s.cursor)
    ensures up && s.cursor < maxLines ==> r.cursor == s.cursor - 1
    ensures up && s.cursor == maxLines ==> r.cursor == (if maxLines >= 2 then maxLines - 2 else 0)
    ensures EnterLineAsWritten(s.cursor, up, maxLines) >= 0 ==> r.cursor == EnterLineAsWritten(s.cursor, up, maxLines)
  {
    var ls := if s.cursor == maxLines then s.lines
      else if s.cursor == |s.lines| then s.lines + [text]
      else s.lines[s.cursor := text];
    var n := EnterLineAsWritten(s.cursor, up, maxLines);
    EditorState(ls, if n < 0 then 0 else n)
  }

  /** With a one-line limit, a line typed at the limit with the up arrow
      takes the index as written to -1, before the line array; the
      corrected entry stays at the first line. */
  lemma EnterUnderflows()
    ensures var s1 := AfterEnter(EditorState([], 0), "a", false, 1);
      s1 == EditorState(["a"], 1)
      && EnterLineAsWritten(s1.cursor, true, 1) == -1
      && AfterEnter(s1, "b", true, 1) == EditorState(["a"], 0)
  {
    var s1 := AfterEnter(EditorState([], 0), "a", false, 1);
    assert s1.lines == [] + ["a"];
  }

  /** With the line array full and the cursor moved back by the up arrow,
      /I as written makes one line more than the array holds: the next
      prompt stores its line past the end. */
  lemma InsertOverflows()
    ensures var s1 := AfterEnter(EditorState([], 0), "a", false, 2);
      var s2 := AfterEnter(s1, "b", true, 2);
      s2 == EditorState(["a", "b"], 0)
      && |AfterInsertAsWritten(s2, "1", 2).0.lines| == 3
      && AfterInsert(s2, "1", 2).0 == s2
  {
    var s1 := AfterEnter(EditorState([], 0), "a", false, 2);
    assert s1.lines == [] + ["a"];
    assert s1 == EditorState(["a"], 1);
    var s2 := AfterEnter(s1, "b", true, 2);
    assert s2.lines == ["a"] + ["b"];
    assert s2 == EditorState(["a", "b"], 0);
    assert Atoi("1") == 1 by {
      assert SkipSpace("1") == "1";
      assert Digits("1") == "1";
    }
    assert Target("1", 2) == Some(0);
    assert AfterInsertAsWritten(s2, "1", 2).0.lines == Opened(s2.lines, 0);
  }

  /** The internal editor's line array: `str` has a slot for each line the
      message may have plus the one being entered. */
  class LineEditor {
    const maxLines: nat
    const str: array<string>
    var count: nat
    var cursor: nat

    ghost predicate Valid()
      reads this
    {
      str.Length == maxLines + 1 && cursor <= count <= maxLines
    }

    function Lines(): seq<string>
      reads this, str
      requires count <= str.Length
    {
      str[..count]
    }

    function State(): EditorState
      reads this, str
      requires count <= str.Length
    {
      EditorState(Lines(), cursor)
    }

    /** msgeditor's import of `buf` (writemsg.cpp:713-749); the cursor
        ends past the last line read. */
    constructor(buf: string, maxLines: nat)
      ensures Valid() && Lines() == Imported(buf, maxLines) && cursor == count
    {
      var a := new string[maxLines + 1](_ => []);
      var n := ImportLines(a, buf, maxLines);
      this.maxLines := maxLines;
      str := a;
      count := n;
      cursor := n;
    }

    /** /D with the text after "/D". Returns false when the line number is
        out of range. */
    method Delete(arg: string) returns (valid: bool)
      requires Valid()
      modifies str, this`count, this`cursor
      ensures Valid() && (State(), valid) == AfterDelete(old(State()), arg)
    {
      if count == 0 {
        return true;
      }
      var t := Target(arg, count);
      if t.None? {
        return false;
      }
      ghost var ls := Lines();
      var i := t.value;
      count := count - 1;
      while i < count
        invariant str.Length == maxLines + 1 && count < maxLines && |ls| == count + 1
        modifies str
        invariant t.value <= i <= count
        invariant forall k :: 0 <= k < t.value ==> str[k] == ls[k]
        invariant forall k :: t.value <= k < i ==> str[k] == ls[k + 1]
        invariant forall k :: i < k <= count ==> str[k] == ls[k]
        decreases count - i
      {
        str[i] := str[i + 1];
        i := i + 1;
      }
      assert Lines() == Without(ls, t.value);
      if cursor > count {
        cursor := count;
      }
      return true;
    }

    /** /I with the text after "/I". Returns false when the line number is
        out of range. */
    method Insert(arg: string) returns (valid: bool)
      requires Valid()
      modifies str, this`count, this`cursor
      ensures Valid() && (State(), valid) == AfterInsert(old(State()), arg, maxLines)
    {
      if count >= maxLines || count == 0 {
        return true;
      }
      var t := Target(arg, count);
      if t.None? {
        return false;
      }
      ghost var ls := Lines();
      var j := count;
      while j > t.value
        invariant str.Length == maxLines + 1 && count < maxLines && |ls| == count
        modifies str
        invariant t.value <= j <= count
        invariant forall k :: 0 <= k < t.value ==> str[k] == ls[k]
        invariant forall k :: t.value <= k < j ==> str[k] == ls[k]
        invariant forall k :: j < k <= count ==> str[k] == ls[k - 1]
        decreases j
      {
        str[j] := str[j - 1];
        j := j - 1;
      }
      str[j] := [];
      count := count + 1;
      assert Lines() == Opened(ls, t.value);
      cursor := count;
      return true;
    }
  }

  /** The import loop: the lines of `buf` into the slots of `a`, as many
      as fit. */
  method ImportLines(a: array<string>, buf: string, maxLines: nat) returns (n: nat)
    requires a.Length == maxLines + 1
    modifies a
    ensures n <= maxLines && a[..n] == Imported(buf, maxLines)
  {
    var b := CStr(buf);
    var l := 0;
    n := 0;
    while l < |b| && n < maxLines
      invariant l <= |b| + 1 && n <= maxLines
      invariant a[..n] + ImportFrom(b, l, maxLines - n) == Imported(buf, maxLines)
      decreases |b| + 1 - l
    {
      var line, next := ReadLine(b, l);
      assert ImportFrom(b, l, maxLines - n) == [line] + ImportFrom(b, next, maxLines - n - 1);
      a[n] := line;
      assert a[..n + 1] == a[..n] + [line];
      n := n + 1;
      l := next;
    }
  }

  /** One line of the import: the column loop with its tab expansion. */
  method ReadLine(b: string, l0: nat) returns (line: string, next: nat)
    requires l0 <= |b|
    ensures (line, next) == LineFrom(b, l0, [])
  {
    var l := l0;
    line := [];
    while |line| < LINE_WIDTH && l < |b|
      invariant l <= |b| && EditorLine(line)
      invariant LineFrom(b, l, line) == LineFrom(b, l0, [])
      decreases |b| - l
    {
      if b[l] == CR {
        next := l + 2;
        return;
      }
      if b[l] == TAB {
        ghost var line0 := line;
        var stop := TabStop(|line|);
        while |line| < stop
          invariant |line0| <= |line| <= stop && line == line0 + Spaces(|line| - |line0|)
          decreases stop - |line|
        {
          line := line + [' '];
        }
      } else {
        line := line + [b[l]];
      }
      l := l + 1;
    }
    next := if |line| == LINE_WIDTH && At(b, l) == CR then l + 2 else l;
  }

  // ---------------------------------------------------------------- chmsgattr

  /** The attribute each key of the attribute menu toggles. */
  function KeyBit(c: char): (r: Option<Attr>)
    ensures r.Some? <==> c in "PRKANMVDL"
  {
    match c
    case 'P' => Some(MSG_PRIVATE)
    case 'R' => Some(MSG_READ)
    case 'K' => Some(MSG_KILLREAD)
    case 'A' => Some(MSG_ANONYMOUS)
    case 'N' => Some(MSG_PERMANENT)
    case 'M' => Some(MSG_MODERATED)
    case 'V' => Some(MSG_VALIDATED)
    case 'D' => Some(MSG_DELETE)
    case 'L' => Some(MSG_LOCKED)
    case _ => None
  }

  /** The attributes after the keys from `i` on: each menu key toggles its
      bit and any other key ends the menu. */
  function ToggledFrom(a: Attr, keys: string, i: nat): Attr
    requires i <= |keys|
    decreases |keys| - i
  {
    if i == |keys| then a
    else match KeyBit(keys[i])
      case None => a
      case Some(bit) => ToggledFrom(a ^ bit, keys, i + 1)
  }

  /** The XOR of the bits of the menu keys from `i` up to the first other
      key. */
  function MaskFrom(keys: string, i: nat): Attr
    requires i <= |keys|
    decreases |keys| - i
  {
    if i == |keys| then 0
    else match KeyBit(keys[i])
      case None => 0
      case Some(bit) => bit ^ MaskFrom(keys, i + 1)
  }

  /** chmsgattr (writemsg.cpp:1506-1550), the keys already upper-cased;
      the end of the keys stands for the user going off line. */
  method ChangeAttr(attr: Attr, keys: string) returns (r: Attr)
    ensures r == ToggledFrom(attr, keys, 0)
  {
    r := attr;
    var i := 0;
    while i < |keys|
      invariant i <= |keys| && ToggledFrom(r, keys, i) == ToggledFrom(attr, keys, 0)
      decreases |keys| - i
    {
      match KeyBit(keys[i]) {
        case None => return;
        case Some(bit) => r := r ^ bit;
      }
      i := i + 1;
    }
  }

  /** The keys act as one XOR mask, so their order does not matter. */
  lemma {:induction false} ToggledIsMask(a: Attr, keys: string, i: nat)
    requires i <= |keys|
    ensures ToggledFrom(a, keys, i) == a ^ MaskFrom(keys, i)
    decreases |keys| - i
  {
    if i == |keys| || KeyBit(keys[i]).None? {
      XorZero(a);
    } else {
      var bit := KeyBit(keys[i]).value;
      ToggledIsMask(a ^ bit, keys, i + 1);
      MaskStep(keys, i, bit);
      ToggledStep(a, keys, i, bit);
      XorAssoc(a, bit, MaskFrom(keys, i + 1));
    }
  }

  lemma ToggledStep(a: Attr, keys: string, i: nat, bit: Attr)
    requires i < |keys| && KeyBit(keys[i]) == Some(bit)
    ensures ToggledFrom(a, keys, i) == ToggledFrom(a ^ bit, keys, i + 1)
  {
  }

  lemma MaskStep(keys: string, i: nat, bit: Attr)
    requires i < |keys| && KeyBit(keys[i]) == Some(bit)
    ensures MaskFrom(keys, i) == bit ^ MaskFrom(keys, i + 1)
  {
  }

  lemma XorZero(a: Attr)
    ensures a ^ 0 == a
  {
  }

  lemma XorAssoc(a: Attr, b: Attr, c: Attr)
    ensures (a ^ b) ^ c == a ^ (b ^ c)
  {
  }

  /** All bits the menu can toggle. */
  const MENU_BITS: Attr := MSG_PRIVATE | MSG_READ | MSG_KILLREAD | MSG_ANONYMOUS | MSG_PERMANENT
    | MSG_MODERATED | MSG_VALIDATED | MSG_DELETE | MSG_LOCKED

  /** The mask only holds menu bits. */
  lemma {:induction false} MaskInMenu(keys: string, i: nat)
    requires i <= |keys|
    ensures MaskFrom(keys, i) & !MENU_BITS == 0
    decreases |keys| - i
  {
    if i < |keys| && KeyBit(keys[i]).Some? {
      MaskInMenu(keys, i + 1);
      KeyBitInMenu(keys[i]);
      InMenu(KeyBit(keys[i]).value, MaskFrom(keys, i + 1));
    }
  }

  /** Each menu key toggles one of the nine menu attributes. */
  lemma KeyBitInMenu(c: char)
    requires KeyBit(c).Some?
    ensures KeyBit(c).value in {MSG_PRIVATE, MSG_READ, MSG_KILLREAD, MSG_ANONYMOUS, MSG_PERMANENT,
                                MSG_MODERATED, MSG_VALIDATED, MSG_DELETE, MSG_LOCKED}
  {
  }

  lemma InMenu(bit: Attr, m: Attr)
    requires bit in {MSG_PRIVATE, MSG_READ, MSG_KILLREAD, MSG_ANONYMOUS, MSG_PERMANENT,
                     MSG_MODERATED, MSG_VALIDATED, MSG_DELETE, MSG_LOCKED}
    requires m & !MENU_BITS == 0
    ensures (bit ^ m) & !MENU_BITS == 0
  {
  }

  /** Only the nine menu attributes ever change (not MSG_REPLIED or
      MSG_NOREPLY, say). */
  lemma OnlyMenuBitsChange(a: Attr, keys: string)
    ensures (ToggledFrom(a, keys, 0) ^ a) & !MENU_BITS == 0
  {
    ToggledIsMask(a, keys, 0);
    MaskInMenu(keys, 0);
    XorCancel(a, MaskFrom(keys, 0));
  }

  /** Pressing a menu key twice restores the attributes. */
  lemma KeyTwiceRestores(a: Attr, c: char)
    requires KeyBit(c).Some?
    ensures ToggledFrom(a, [c, c], 0) == a
  {
    var bit := KeyBit(c).value;
    ToggledIsMask(a, [c, c], 0);
    MaskStep([c, c], 0, bit);
    MaskStep([c, c], 1, bit);
    assert MaskFrom([c, c], 2) == 0;
    XorSelf(bit);
    XorZero(a);
  }

  lemma XorSelf(b: Attr)
    ensures b ^ (b ^ 0) == 0
  {
  }

  lemma XorCancel(a: Attr, m: Attr)
    ensures (a ^ m) ^ a == m
  {
  }
}

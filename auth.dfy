/** Authentication digests of the mail server: the CRAM-MD5 keyed digest
    (HMAC-MD5, section 2 of RFC 2104 and section 2 of RFC 2195) computed by
    the SMTP server to check a client and by the delivery thread to log in
    to a relay, the POP3 APOP digest (section 7 of RFC 1939) and the split of
    an AUTH PLAIN message (section 2 of RFC 4616). MD5 and its hex
    rendering are parameters. */
module Auth {
  import opened Text

  /** An MD5 digest: 16 bytes. */
  type Digest = d: seq<byte> | |d| == 16 witness [0, 0, 0, 0, 0, 0, 0, 0, 0, 0, 0, 0, 0, 0, 0, 0]

  /** The byte a character of a C string stands for. */
  function ByteOf(c: char): byte {
    (c as int % 256) as byte
  }

  function Bytes(s: string): (b: seq<byte>)
    ensures |b| == |s| && forall i :: 0 <= i < |s| ==> b[i] == ByteOf(s[i])
  {
    seq(|s|, i requires 0 <= i < |s| => ByteOf(s[i]))
  }

  function Xor(a: byte, b: byte): byte {
    ((a as bv8) ^ (b as bv8)) as byte
  }

  const IPAD: byte := 0x36
  const OPAD: byte := 0x5c

  /** Every byte of a block XOR-ed with a pad byte. */
  function XorAll(k: seq<byte>, pad: byte): (r: seq<byte>)
    ensures |r| == |k| && forall i :: 0 <= i < |k| ==> r[i] == Xor(k[i], pad)
  {
    seq(|k|, i requires 0 <= i < |k| => Xor(k[i], pad))
  }

  // ---------------------------------------------------------------- RFC 2104

  /** The 64-byte key block of RFC 2104: a key longer than the block is
      hashed first; the key is then filled with zero bytes. */
  function RfcKey(md5: seq<byte> -> Digest, key: seq<byte>): (k: seq<byte>)
    ensures |k| == 64
  {
    var base := if |key| > 64 then md5(key) else key;
    base + seq(64 - |base|, _ => 0)
  }

  /** HMAC-MD5 as RFC 2104 defines it: H((K xor opad) || H((K xor ipad) || text)). */
  function Hmac(md5: seq<byte> -> Digest, key: seq<byte>, text: seq<byte>): Digest {
    var k := RfcKey(md5, key);
    md5(XorAll(k, OPAD) + md5(XorAll(k, IPAD) + text))
  }

  // ---------------------------------------------------------------- CRAM-MD5

  /** The key as the 64-byte buffer `secret` holds it: the C string copied
      with room for its NUL (at most 63 bytes), the rest zero. */
  function SecretKey(pass: string): (k: string)
    ensures |k| <= 63
  {
    Take(CStr(pass), 63)
  }

  /** The CRAM-MD5 digest of a challenge under a password: the 64-byte
      buffer, XOR-ed with ipad and followed by the challenge, is hashed; the
      buffer XOR-ed with opad and followed by that digest is hashed again.
      The result is HMAC-MD5 keyed with the password as its buffer holds it. */
  method CramDigest(pass: string, challenge: string, md5: seq<byte> -> Digest) returns (digest: Digest)
    requires |CStr(challenge)| <= 255
    ensures digest == Hmac(md5, Bytes(SecretKey(pass)), Bytes(CStr(challenge)))
  {
    var key := Bytes(SecretKey(pass));
    var secret := new byte[64](i requires 0 <= i < 64 => if i < |key| then key[i] else 0);
    assert secret[..] == RfcKey(md5, key);
    var text := Bytes(CStr(challenge));
    var data := new byte[384];
    XorInto(data, secret, IPAD);
    CopyAt(data, text);
    Joined(data[..], 64, |text|);
    digest := md5(data[..64 + |text|]);
    XorInto(data, secret, OPAD);
    CopyAt(data, digest);
    Joined(data[..], 64, 16);
    digest := md5(data[..80]);
  }

  /** md5_data[i] = secret[i] ^ pad for the 64 bytes of the key. */
  method XorInto(data: array<byte>, secret: array<byte>, pad: byte)
    requires data.Length == 384 && secret.Length == 64 && data != secret
    modifies data
    ensures data[..64] == XorAll(secret[..], pad)
    ensures data[64..] == old(data[64..])
  {
    var i := 0;
    while i < 64
      invariant i <= 64
      invariant forall k :: 0 <= k < i ==> data[k] == Xor(secret[k], pad)
      invariant forall k :: 64 <= k < 384 ==> data[k] == old(data[k])
    {
      data[i] := Xor(secret[i], pad);
      i := i + 1;
    }
  }

  /** The bytes of `src` copied after the key block. */
  method CopyAt(data: array<byte>, src: seq<byte>)
    requires data.Length == 384 && |src| <= 320
    modifies data
    ensures data[..64] == old(data[..64])
    ensures data[64..64 + |src|] == src
  {
    var j := 0;
    while j < |src|
      invariant j <= |src|
      invariant forall k :: 0 <= k < 64 ==> data[k] == old(data[k])
      invariant forall k :: 0 <= k < j ==> data[64 + k] == src[k]
    {
      data[64 + j] := src[j];
      j := j + 1;
    }
  }

  lemma Joined(d: seq<byte>, n: nat, m: nat)
    requires n + m <= |d|
    ensures d[..n + m] == d[..n] + d[n..n + m]
  {
  }

  /** A password of at most 63 bytes without NUL is the HMAC key itself. */
  lemma ShortKeyIsRfcKey(pass: string)
    requires |pass| <= 63 && NUL !in pass
    ensures Bytes(SecretKey(pass)) == Bytes(pass)
  {
    NoNulCStr(pass);
    TakeAll(pass, 63);
  }

  lemma NoNulCStr(s: string)
    requires NUL !in s
    ensures CStr(s) == s
  {
    assert forall k :: 0 <= k < |s| ==> s[k] !in {NUL};
    TruncAtNone(s, {NUL});
  }

  /** A 64-byte password is cut to 63 bytes: the key block differs from the
      one RFC 2104 uses, which keeps all 64 bytes. */
  lemma LongKeyCut(md5: seq<byte> -> Digest, pass: string)
    requires |pass| == 64 && NUL !in pass && ByteOf(pass[63]) != 0
    ensures RfcKey(md5, Bytes(SecretKey(pass)))[63] == 0
    ensures RfcKey(md5, Bytes(pass))[63] == ByteOf(pass[63])
  {
    NoNulCStr(pass);
  }

  /** The server decodes a CRAM-MD5 response into the 128-byte `response`
      buffer (at most 127 bytes of it) and splits that at its last space
      into the user name and the digest text; without a space both are the
      whole buffer. */
  function CramSplit(response: string): (r: (string, string))
    ensures |r.0| <= 127 && |r.1| <= 127
  {
    var s := CStr(Take(response, 127));
    match LastIndexOf(s, ' ')
    case None => (Take(s, 127), s)
    case Some(i) => (Take(s[..i], 127), s[i + 1..])
  }

  /** The server's check of the digest text: it equals the hex rendering
      (MD5_hex, given as `hex`) of the digest keyed with the user's password
      in lower case. */
  predicate CramMatches(response: string, pass: string, challenge: string,
                        md5: seq<byte> -> Digest, hex: Digest -> string) {
    CramSplit(response).1 == hex(Hmac(md5, Bytes(SecretKey(Lower(pass))), Bytes(CStr(challenge))))
  }

  /** The response the delivery thread sends to a relay: the relay user, a
      space and the hex digest of the challenge under the relay password. */
  function CramClientResponse(user: string, pass: string, challenge: string,
                              md5: seq<byte> -> Digest, hex: Digest -> string): string {
    user + " " + hex(Hmac(md5, Bytes(SecretKey(pass)), Bytes(CStr(challenge))))
  }

  /** The server recovers the user and the digest the client sent, and
      accepts it when the client's password is the user's password in lower
      case. */
  lemma CramRoundTrip(user: string, pass: string, challenge: string,
                      md5: seq<byte> -> Digest, hex: Digest -> string)
    requires NUL !in user
    requires var h := hex(Hmac(md5, Bytes(SecretKey(pass)), Bytes(CStr(challenge))));
      ' ' !in h && NUL !in h && |user| + 1 + |h| <= 127
    ensures CramSplit(CramClientResponse(user, pass, challenge, md5, hex)).0 == user
    ensures Lower(pass) == pass ==> CramMatches(CramClientResponse(user, pass, challenge, md5, hex), pass, challenge, md5, hex)
  {
    var h := hex(Hmac(md5, Bytes(SecretKey(pass)), Bytes(CStr(challenge))));
    var s := user + " " + h;
    assert CStr(s) == s by {
      assert NUL !in s;
      NoNulCStr(s);
    }
    TakeAll(s, 127);
    SpaceSplit(user, h);
    TakeAll(user, 127);
  }

  /** A user name of 95 bytes or more leaves no room in the 128-byte
      buffer for the space and a 32-digit hex digest: the digest text the
      server recovers is never the expected one. */
  lemma CramLongUserRefused(user: string, pass: string, challenge: string,
                            md5: seq<byte> -> Digest, hex: Digest -> string, account: string)
    requires NUL !in user && ' ' !in user && |user| >= 95
    requires var h := hex(Hmac(md5, Bytes(SecretKey(pass)), Bytes(CStr(challenge))));
      ' ' !in h && NUL !in h
    requires |hex(Hmac(md5, Bytes(SecretKey(Lower(account))), Bytes(CStr(challenge))))| == 32
    ensures !CramMatches(CramClientResponse(user, pass, challenge, md5, hex), account, challenge, md5, hex)
  {
    var h := hex(Hmac(md5, Bytes(SecretKey(pass)), Bytes(CStr(challenge))));
    var full := user + " " + h;
    var t := Take(full, 127);
    assert NUL !in t;
    NoNulCStr(t);
    if |user| < 127 {
      var h' := h[..|t| - |user| - 1];
      assert t == user + " " + h';
      SpaceSplit(user, h');
      assert |CramSplit(full).1| <= 31;
    } else {
      assert forall k :: 0 <= k < |t| ==> t[k] == user[k];
      assert |CramSplit(full).1| == 127;
    }
  }

  // ---------------------------------------------------------------- APOP

  /** The APOP argument split at its last space into the user name (cut to
      127 bytes) and the digest; without a space both are the argument. */
  function ApopSplit(arg: string): (r: (string, string))
    ensures |r.0| <= 127
  {
    var p := SkipSpace(CStr(arg));
    match LastIndexOf(p, ' ')
    case None => (Take(p, 127), p)
    case Some(i) => (Take(p[..i], 127), p[i + 1..])
  }

  /** APOP succeeds when the digest equals the hex MD5 of the greeting's
      challenge followed by the user's password in lower case. */
  predicate ApopMatches(arg: string, challenge: string, pass: string,
                        md5: seq<byte> -> Digest, hex: Digest -> string) {
    hex(md5(Bytes(CStr(challenge) + CStr(Lower(pass))))) == ApopSplit(arg).1
  }

  /** A client's "APOP user digest" names the user, and is accepted exactly
      when its digest is the MD5 of challenge and lower-case password. */
  lemma ApopRoundTrip(user: string, digest: string, challenge: string, pass: string,
                      md5: seq<byte> -> Digest, hex: Digest -> string)
    requires 0 < |user| <= 127 && NUL !in user && !IsSpace(user[0])
    requires NUL !in digest && ' ' !in digest
    ensures ApopSplit(user + " " + digest) == (user, digest)
    ensures ApopMatches(user + " " + digest, challenge, pass, md5, hex)
      <==> digest == hex(md5(Bytes(CStr(challenge) + CStr(Lower(pass)))))
  {
    ApopSplitOf(user, digest);
  }

  lemma ApopSplitOf(user: string, digest: string)
    requires 0 < |user| <= 127 && NUL !in user && !IsSpace(user[0])
    requires NUL !in digest && ' ' !in digest
    ensures ApopSplit(user + " " + digest) == (user, digest)
  {
    var s := user + " " + digest;
    assert CStr(s) == s by {
      assert NUL !in s;
      NoNulCStr(s);
    }
    assert s[0] == user[0];
    SkipSpaceNone(s);
    SpaceSplit(user, digest);
    TakeAll(user, 127);
  }

  /** "a b" with no space in b splits at that space. */
  lemma SpaceSplit(a: string, b: string)
    requires ' ' !in b
    ensures var s := a + " " + b;
      LastIndexOf(s, ' ') == Some(|a|) && s[..|a|] == a && s[|a| + 1..] == b
  {
    var s := a + " " + b;
    assert forall k :: |a| < k < |s| ==> s[k] == b[k - |a| - 1];
    LastIndexOfAt(s, ' ', |a|);
    assert s[..|a|] == a;
    assert s[|a| + 1..] == b;
  }

  // ---------------------------------------------------------------- AUTH PLAIN

  /** What AUTH PLAIN makes of its decoded message: a bad argument, or the
      user name and the password. */
  datatype PlainResult = PlainBadArg | PlainLogin(user: string, pass: string)

  /** The 128-byte buffer the message is decoded into: zeroed, then filled
      with the decoded bytes (at most 127 of them). */
  function PlainBuffer(decoded: string): (b: string)
    ensures |b| == 128 && b[127] == NUL
  {
    var d := Take(decoded, 127);
    d + seq(128 - |d|, _ => NUL)
  }

  /** The index of the first NUL at or after `i`, or |b| when there is none. */
  function NulFrom(b: string, i: nat): (k: nat)
    requires i <= |b|
    ensures i <= k <= |b| && (k < |b| ==> b[k] == NUL)
    ensures forall j :: i <= j < k ==> b[j] != NUL
    ensures forall j :: i <= j < |b| && b[j] == NUL ==> k <= j
    decreases |b| - i
  {
    if i == |b| || b[i] == NUL then i else NulFrom(b, i + 1)
  }

  /** The split as written, over the 128-byte buffer: skip the first field
      and its NUL; the next field is the user name; skip it and its NUL; the
      rest is the password. An empty user name or password is a bad
      argument. When the first field, or the user name, ends at the buffer's
      last byte, the next field is read at index 128, one past the buffer:
      those cases are returned as None. */
  function PlainAsWritten(b: string): Option<PlainResult>
    requires |b| == 128 && b[127] == NUL
  {
    var p := NulFrom(b, 0) + 1;
    if p >= |b| then None
    else if b[p] == NUL then Some(PlainBadArg)
    else
      var user := Take(CStr(b[p..]), 127);
      var q := NulFrom(b, p) + 1;
      if q >= |b| then None
      else if b[q] == NUL then Some(PlainBadArg)
      else Some(PlainLogin(user, Take(CStr(b[q..]), 127)))
  }

  /** A decoded message of 127 bytes, an empty first field and a 126-byte
      user name with no password: the password is looked for one byte past
      the buffer. */
  lemma PlainReadsPastBuffer()
    ensures PlainAsWritten(PlainBuffer([NUL] + seq(126, _ => 'u'))) == None
  {
    var d := [NUL] + seq(126, _ => 'u');
    var b := PlainBuffer(d);
    assert Take(d, 127) == d;
    assert b[0] == NUL;
    assert NulFrom(b, 0) == 0;
    assert forall j :: 1 <= j < 127 ==> b[j] == 'u';
    NulFromAt(b, 1, 127);
  }

  lemma NulFromAt(b: string, i: nat, k: nat)
    requires i <= k < |b| && b[k] == NUL && forall j :: i <= j < k ==> b[j] != NUL
    ensures NulFrom(b, i) == k
    decreases k - i
  {
    if i < k {
      NulFromAt(b, i + 1, k);
    }
  }

  /** The split with each field's index checked against the buffer: a
      field that fills the buffer leaves nothing after it, a bad argument. */
  function PlainSplit(b: string): (r: PlainResult)
    requires |b| == 128 && b[127] == NUL
    ensures r.PlainLogin? ==> r.user != [] && r.pass != [] && NUL !in r.user && NUL !in r.pass
  {
    var p := NulFrom(b, 0) + 1;
    if p >= |b| || b[p] == NUL then PlainBadArg
    else
      var q := NulFrom(b, p) + 1;
      if q >= |b| || b[q] == NUL then PlainBadArg
      else PlainLogin(Take(CStr(b[p..]), 127), Take(CStr(b[q..]), 127))
  }

  /** The checked split agrees with the split as written wherever that one
      stays inside the buffer. */
  lemma PlainSplitAgrees(b: string)
    requires |b| == 128 && b[127] == NUL && PlainAsWritten(b).Some?
    ensures PlainSplit(b) == PlainAsWritten(b).value
  {
  }

  /** The walk of AUTH PLAIN over the buffer, with the check. */
  method PlainFields(buf: array<char>) returns (r: PlainResult)
    requires buf.Length == 128 && buf[127] == NUL
    ensures r == PlainSplit(buf[..])
  {
    var p := SkipField(buf, 0);
    p := p + 1;
    if p >= buf.Length || buf[p] == NUL {
      return PlainBadArg;
    }
    var q := SkipField(buf, p);
    q := q + 1;
    if q >= buf.Length || buf[q] == NUL {
      return PlainBadArg;
    }
    r := PlainLogin(CopyField(buf, p), CopyField(buf, q));
    assert CopyField(buf, p) == Take(CStr(buf[..][p..]), 127);
    assert CopyField(buf, q) == Take(CStr(buf[..][q..]), 127);
  }

  /** while(*p) p++: the index of the NUL ending the field at `i`. */
  method SkipField(buf: array<char>, i: nat) returns (k: nat)
    requires i < buf.Length && buf[buf.Length - 1] == NUL
    ensures k == NulFrom(buf[..], i) && k < buf.Length
  {
    k := i;
    while buf[k] != NUL
      invariant i <= k < buf.Length && forall j :: i <= j < k ==> buf[j] != NUL
      decreases buf.Length - k
    {
      k := k + 1;
    }
    NulFromAt(buf[..], i, k);
  }

  /** SAFECOPY of the C string at `i` into a 128-byte buffer. */
  function CopyField(buf: array<char>, i: nat): string
    requires i <= buf.Length
    reads buf
  {
    Take(CStr(buf[i..]), 127)
  }

  /** An RFC 4616 message "authzid NUL authcid NUL passwd" yields the
      authentication identity and the password. */
  lemma PlainRoundTrip(authz: string, user: string, pass: string)
    requires NUL !in authz && NUL !in user && NUL !in pass && user != [] && pass != []
    requires |authz| + |user| + |pass| + 2 <= 127
    ensures PlainSplit(PlainBuffer(authz + [NUL] + user + [NUL] + pass)) == PlainLogin(user, pass)
  {
    var b := PlainBuffer(authz + [NUL] + user + [NUL] + pass);
    var p := |authz| + 1;
    var q := p + |user| + 1;
    PlainLayout(authz, user, pass);
    NulFromAt(b, 0, |authz|);
    NulFromAt(b, p, q - 1);
    FieldAt(b, p, user);
    FieldAt(b, q, pass);
    PlainSplitAt(b, p, q, user, pass);
  }

  lemma PlainSplitAt(b: string, p: nat, q: nat, user: string, pass: string)
    requires |b| == 128 && b[127] == NUL
    requires NulFrom(b, 0) + 1 == p && p < q < |b| && NulFrom(b, p) + 1 == q
    requires CStr(b[p..]) == user && CStr(b[q..]) == pass && user != [] && pass != []
    requires |user| <= 127 && |pass| <= 127
    ensures PlainSplit(b) == PlainLogin(user, pass)
  {
    assert b[p] == user[0] && b[q] == pass[0];
    TakeAll(user, 127);
    TakeAll(pass, 127);
  }

  /** Where the three fields and their NULs sit in the buffer. */
  lemma PlainLayout(authz: string, user: string, pass: string)
    requires |authz| + |user| + |pass| + 2 <= 127
    ensures var b := PlainBuffer(authz + [NUL] + user + [NUL] + pass);
      var p := |authz| + 1;
      var q := p + |user| + 1;
      (forall j :: 0 <= j < |authz| ==> b[j] == authz[j]) && b[|authz|] == NUL
      && (forall j :: 0 <= j < |user| ==> b[p + j] == user[j]) && b[q - 1] == NUL
      && (forall j :: 0 <= j < |pass| ==> b[q + j] == pass[j]) && b[q + |pass|] == NUL
  {
    var d := authz + [NUL] + user + [NUL] + pass;
    assert Take(d, 127) == d;
    var b := PlainBuffer(d);
    assert b[..|d|] == d;
  }

  /** The C string at `i` is the field that starts there and is followed by
      a NUL. */
  lemma FieldAt(b: string, i: nat, f: string)
    requires i + |f| < |b| && NUL !in f && b[i + |f|] == NUL
    requires forall j :: 0 <= j < |f| ==> b[i + j] == f[j]
    ensures CStr(b[i..]) == f
  {
    var t := b[i..];
    assert t[..|f|] == f;
    assert t == f + t[|f|..];
    assert forall k :: 0 <= k < |f| ==> f[k] !in {NUL};
    TruncAtStop(f, t[|f|..], {NUL});
  }
}

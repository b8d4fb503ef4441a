/** The raw key envelope of src/managedSshKeyBundle.ts: a fixed header with four
    big-endian lengths, four fields laid end to end, and buffers that are zeroed
    whatever happens. */
module KeyBundle {
  import opened Text

  newtype byte = x: int | 0 <= x < 256

  type Bytestring = seq<byte>

  const HEADER_BYTES: nat := 28
  const PRIVATE_KEY_MAX_BYTES: nat := 4 * 1024 * 1024
  const PUBLIC_KEY_MAX_BYTES: nat := 1024 * 1024
  const CERTIFICATE_MAX_BYTES: nat := 1024 * 1024
  const PASSPHRASE_MAX_BYTES: nat := 64 * 1024
  const VERSION: byte := 1
  /** "NCTMKRAW" */
  const MAGIC: Bytestring := [78, 67, 84, 77, 75, 82, 65, 87]

  datatype Bundle = Bundle(
    privateKey: Bytestring, publicKey: Option<Bytestring>, certificate: Option<Bytestring>, passphrase: Option<Bytestring>)

  datatype Staged<T> = Done(value: T) | Failed(reason: string)

  // ----- the envelope -----

  function Field(f: Option<Bytestring>): Bytestring {
    if f.Some? then f.value else []
  }

  /** `validateField` on all four fields. */
  predicate Valid(b: Bundle) {
    && 0 < |b.privateKey| <= PRIVATE_KEY_MAX_BYTES
    && |Field(b.publicKey)| <= PUBLIC_KEY_MAX_BYTES
    && |Field(b.certificate)| <= CERTIFICATE_MAX_BYTES
    && |Field(b.passphrase)| <= PASSPHRASE_MAX_BYTES
  }

  function Flags(publicKey: bool, certificate: bool, passphrase: bool): byte {
    var bits: bv8 :=
      (if publicKey then 1 << 0 else 0) | (if certificate then 1 << 1 else 0) | (if passphrase then 1 << 2 else 0);
    bits as int as byte
  }

  /** An unsigned 32-bit big-endian number. */
  function BigEndian(n: nat): (r: Bytestring)
    requires n < 0x1_0000_0000
    ensures |r| == 4
  {
    [(n / 0x100_0000) as byte, (n / 0x1_0000 % 0x100) as byte, (n / 0x100 % 0x100) as byte, (n % 0x100) as byte]
  }

  function Header(privateKey: nat, publicKey: nat, certificate: nat, passphrase: nat): (r: Bytestring)
    requires privateKey < 0x1_0000_0000 && publicKey < 0x1_0000_0000
    requires certificate < 0x1_0000_0000 && passphrase < 0x1_0000_0000
    ensures |r| == HEADER_BYTES
  {
    MAGIC + [VERSION] + [Flags(publicKey > 0, certificate > 0, passphrase > 0)] + [0, 0]
    + BigEndian(privateKey) + BigEndian(publicKey) + BigEndian(certificate) + BigEndian(passphrase)
  }

  function Payload(b: Bundle): Bytestring {
    b.privateKey + Field(b.publicKey) + Field(b.certificate) + Field(b.passphrase)
  }

  /** The bytes `encodeManagedSshKeyBundleEnvelope` builds from a valid bundle. */
  function Encode(b: Bundle): Bytestring
    requires Valid(b)
  {
    Header(|b.privateKey|, |Field(b.publicKey)|, |Field(b.certificate)|, |Field(b.passphrase)|) + Payload(b)
  }

  // ----- reading it back -----

  function ReadLength(e: Bytestring, at: nat): nat
    requires at + 4 <= |e|
  {
    e[at] as nat * 0x100_0000 + e[at + 1] as nat * 0x1_0000 + e[at + 2] as nat * 0x100 + e[at + 3] as nat
  }

  function Optional(f: Bytestring): Option<Bytestring> {
    if f == [] then None else Some(f)
  }

  /** The reader the layout describes: four lengths, then four consecutive slices
      that must use up the envelope. */
  function Decode(e: Bytestring): Option<Bundle> {
    if |e| < HEADER_BYTES then None
    else
      var a := HEADER_BYTES + ReadLength(e, 12);
      var b := a + ReadLength(e, 16);
      var c := b + ReadLength(e, 20);
      var d := c + ReadLength(e, 24);
      if d != |e| then None
      else Some(Bundle(e[HEADER_BYTES..a], Optional(e[a..b]), Optional(e[b..c]), Optional(e[c..d])))
  }

  /** A bundle whose empty optional fields are absent. */
  function Canonical(b: Bundle): Bundle {
    Bundle(b.privateKey, Optional(Field(b.publicKey)), Optional(Field(b.certificate)), Optional(Field(b.passphrase)))
  }

  lemma ReadIn(before: Bytestring, r: Bytestring, after: Bytestring)
    requires |r| == 4
    ensures ReadLength(before + r + after, |before|) == ReadLength(r, 0)
  {
    var e := before + r + after;
    assert e[|before|] == r[0] && e[|before| + 1] == r[1] && e[|before| + 2] == r[2] && e[|before| + 3] == r[3];
  }

  lemma Base256(n: nat)
    requires n < 0x1_0000_0000
    ensures n == n / 0x100_0000 * 0x100_0000 + n / 0x1_0000 % 0x100 * 0x1_0000 + n / 0x100 % 0x100 * 0x100 + n % 0x100
  {
    var m := n / 0x100;
    assert n == m * 0x100 + n % 0x100;
    assert m / 0x100 == n / 0x1_0000;
    var k := m / 0x100;
    assert m == k * 0x100 + m % 0x100;
    assert k / 0x100 == n / 0x100_0000;
    assert k == k / 0x100 * 0x100 + k % 0x100;
  }

  lemma BigEndianRead(n: nat, before: Bytestring, after: Bytestring)
    requires n < 0x1_0000_0000
    ensures ReadLength(before + BigEndian(n) + after, |before|) == n
  {
    ReadIn(before, BigEndian(n), after);
    Base256(n);
  }

  lemma HeaderLengths(privateKey: nat, publicKey: nat, certificate: nat, passphrase: nat, rest: Bytestring)
    requires privateKey < 0x1_0000_0000 && publicKey < 0x1_0000_0000
    requires certificate < 0x1_0000_0000 && passphrase < 0x1_0000_0000
    ensures var e := Header(privateKey, publicKey, certificate, passphrase) + rest;
      && ReadLength(e, 12) == privateKey && ReadLength(e, 16) == publicKey
      && ReadLength(e, 20) == certificate && ReadLength(e, 24) == passphrase
  {
    hide BigEndian, ReadLength, Flags;
    var start := MAGIC + [VERSION] + [Flags(publicKey > 0, certificate > 0, passphrase > 0)] + [0, 0];
    var p, q, r, s := BigEndian(privateKey), BigEndian(publicKey), BigEndian(certificate), BigEndian(passphrase);
    var e := start + p + q + r + s + rest;
    assert |start| == 12;
    assert e == start + p + (q + r + s + rest);
    BigEndianRead(privateKey, start, q + r + s + rest);
    assert e == (start + p) + q + (r + s + rest);
    BigEndianRead(publicKey, start + p, r + s + rest);
    assert e == (start + p + q) + r + (s + rest);
    BigEndianRead(certificate, start + p + q, s + rest);
    BigEndianRead(passphrase, start + p + q + r, rest);
  }

  lemma Slices(h: Bytestring, a: Bytestring, b: Bytestring, c: Bytestring, d: Bytestring)
    ensures var e := h + (a + b + c + d);
      && e[|h|..|h| + |a|] == a
      && e[|h| + |a|..|h| + |a| + |b|] == b
      && e[|h| + |a| + |b|..|h| + |a| + |b| + |c|] == c
      && e[|h| + |a| + |b| + |c|..|h| + |a| + |b| + |c| + |d|] == d
  {
    var e := h + (a + b + c + d);
    assert e == h + a + (b + c + d);
    assert e == (h + a) + b + (c + d);
    assert e == (h + a + b) + c + d;
  }

  /** Reading the four lengths and slicing the payload recovers every field. */
  lemma DecodeEncode(b: Bundle)
    requires Valid(b)
    ensures Decode(Encode(b)) == Some(Canonical(b))
  {
    var p, q, r, s := b.privateKey, Field(b.publicKey), Field(b.certificate), Field(b.passphrase);
    var h := Header(|p|, |q|, |r|, |s|);
    HeaderLengths(|p|, |q|, |r|, |s|, Payload(b));
    Slices(h, p, q, r, s);
    hide Header, ReadLength, Field;
  }

  /** Two valid bundles share an envelope exactly when they differ at most in
      writing an absent field as empty. */
  lemma EncodeInjective(b: Bundle, c: Bundle)
    requires Valid(b) && Valid(c)
    ensures Encode(b) == Encode(c) <==> Canonical(b) == Canonical(c)
  {
    DecodeEncode(b);
    DecodeEncode(c);
  }

  predicate HasFlag(flags: byte, bit: nat)
    requires bit < 3
  {
    ((flags as int as bv8) >> bit) & 1 == 1
  }

  lemma FlagBits(p: bool, q: bool, r: bool)
    ensures var f := Flags(p, q, r); HasFlag(f, 0) == p && HasFlag(f, 1) == q && HasFlag(f, 2) == r && f < 8
  {
  }

  /** Each flag bit tells whether its field is there, the fields tile the envelope
      behind the header, and the reserved bytes are zero. */
  lemma EnvelopeLayout(b: Bundle)
    requires Valid(b)
    ensures var e := Encode(b);
      && e[..8] == MAGIC && e[8] == VERSION && e[10] == e[11] == 0 && e[9] < 8
      && (HasFlag(e[9], 0) <==> ReadLength(e, 16) > 0)
      && (HasFlag(e[9], 1) <==> ReadLength(e, 20) > 0)
      && (HasFlag(e[9], 2) <==> ReadLength(e, 24) > 0)
      && |e| == HEADER_BYTES + ReadLength(e, 12) + ReadLength(e, 16) + ReadLength(e, 20) + ReadLength(e, 24)
      && e[HEADER_BYTES..] == Payload(b)
  {
    var p, q, r, s := |b.privateKey|, |Field(b.publicKey)|, |Field(b.certificate)|, |Field(b.passphrase)|;
    HeaderLengths(p, q, r, s, Payload(b));
    FlagBits(q > 0, r > 0, s > 0);
    HeaderStart(p, q, r, s);
    hide Header, ReadLength, HasFlag, Flags;
  }

  lemma HeaderStart(p: nat, q: nat, r: nat, s: nat)
    requires p < 0x1_0000_0000 && q < 0x1_0000_0000 && r < 0x1_0000_0000 && s < 0x1_0000_0000
    ensures var h := Header(p, q, r, s);
      h[..8] == MAGIC && h[8] == VERSION && h[9] == Flags(q > 0, r > 0, s > 0) && h[10] == h[11] == 0
  {
    hide Flags, BigEndian;
  }

  // ----- the writer -----

  function Zeros(n: nat): Bytestring {
    seq(n, _ => 0 as byte)
  }

  lemma ZerosSplit(n: nat)
    requires n >= 2
    ensures Zeros(n) == [0, 0] + Zeros(n - 2)
  {
  }

  /** `target.set(data, offset)` */
  method Set(target: array<byte>, offset: nat, data: Bytestring)
    requires offset + |data| <= target.Length
    modifies target
    ensures target[..] == old(target[..offset]) + data + old(target[offset + |data|..])
  {
    forall i | 0 <= i < |data| {
      target[offset + i] := data[i];
    }
  }

  /** Writing behind what is written so far. */
  lemma Extend(done: Bytestring, left: nat, data: Bytestring, buffer: Bytestring)
    requires |data| <= left && buffer == done + Zeros(left)
    ensures buffer[..|done|] + data + buffer[|done| + |data|..] == done + data + Zeros(left - |data|)
  {
  }

  method SetBehind(target: array<byte>, ghost done: Bytestring, offset: nat, data: Bytestring)
    requires offset == |done| && |done| + |data| <= target.Length && target[..] == done + Zeros(target.Length - |done|)
    modifies target
    ensures target[..] == done + data + Zeros(target.Length - |done| - |data|)
  {
    Extend(done, target.Length - |done|, data, target[..]);
    hide Zeros;
    Set(target, offset, data);
  }

  function Contents(a: array?<byte>): (r: Option<Bytestring>)
    reads a
  {
    if a == null then None else Some(a[..])
  }

  function BundleOf(privateKey: array<byte>, publicKey: array?<byte>, certificate: array?<byte>, passphrase: array?<byte>): Bundle
    reads privateKey, publicKey, certificate, passphrase
  {
    Bundle(privateKey[..], Contents(publicKey), Contents(certificate), Contents(passphrase))
  }

  function Length(a: array?<byte>): nat {
    if a == null then 0 else a.Length
  }

  /** `setUint32` at 12, 16, 20 and 24. */
  method WriteLengths(envelope: array<byte>, ghost start: Bytestring, p: nat, q: nat, r: nat, s: nat)
    requires p < 0x1_0000_0000 && q < 0x1_0000_0000 && r < 0x1_0000_0000 && s < 0x1_0000_0000
    requires |start| == 12 && envelope.Length >= HEADER_BYTES && envelope[..] == start + Zeros(envelope.Length - 12)
    modifies envelope
    ensures envelope[..] == start + BigEndian(p) + BigEndian(q) + BigEndian(r) + BigEndian(s) + Zeros(envelope.Length - 28)
  {
    hide BigEndian, Zeros;
    ghost var done := start;
    SetBehind(envelope, done, 12, BigEndian(p));
    done := done + BigEndian(p);
    SetBehind(envelope, done, 16, BigEndian(q));
    done := done + BigEndian(q);
    SetBehind(envelope, done, 20, BigEndian(r));
    done := done + BigEndian(r);
    SetBehind(envelope, done, 24, BigEndian(s));
  }

  method WriteStart(envelope: array<byte>, magic: Bytestring, version: byte, flags: byte)
    requires envelope.Length >= HEADER_BYTES && envelope[..] == Zeros(envelope.Length) && |magic| == 8
    modifies envelope
    ensures envelope[..] == magic + [version] + [flags] + Zeros(envelope.Length - 10)
  {
    hide Zeros;
    SetBehind(envelope, [], 0, magic);
    assert [] + magic == magic;
    SetBehind(envelope, magic, 8, [version]);
    SetBehind(envelope, magic + [version], 9, [flags]);
  }

  /** Bytes 10 and 11 are reserved and stay zero. */
  method WriteHeader(envelope: array<byte>, p: nat, q: nat, r: nat, s: nat)
    requires p < 0x1_0000_0000 && q < 0x1_0000_0000 && r < 0x1_0000_0000 && s < 0x1_0000_0000
    requires envelope.Length >= HEADER_BYTES && envelope[..] == Zeros(envelope.Length)
    modifies envelope
    ensures envelope[..] == Header(p, q, r, s) + Zeros(envelope.Length - HEADER_BYTES)
  {
    hide BigEndian, Flags, Zeros;
    var n := envelope.Length;
    var flags := Flags(q > 0, r > 0, s > 0);
    WriteStart(envelope, MAGIC, VERSION, flags);
    ZerosSplit(n - 10);
    ghost var start := MAGIC + [VERSION] + [flags] + [0, 0];
    assert envelope[..] == start + Zeros(n - 12);
    WriteLengths(envelope, start, p, q, r, s);
  }

  function Joined(fields: seq<Bytestring>): Bytestring {
    if fields == [] then [] else Joined(fields[..|fields| - 1]) + fields[|fields| - 1]
  }

  lemma {:induction false} JoinedPrefix(fields: seq<Bytestring>, k: nat)
    requires k <= |fields|
    ensures |Joined(fields[..k])| <= |Joined(fields)|
  {
    if k < |fields| {
      JoinedPrefix(fields[..|fields| - 1], k);
      assert fields[..|fields| - 1][..k] == fields[..k];
    } else {
      assert fields[..k] == fields;
    }
  }

  lemma JoinedPushed(fields: seq<Bytestring>, last: Bytestring)
    ensures Joined(fields + [last]) == Joined(fields) + last
  {
    assert (fields + [last])[..|fields|] == fields;
  }

  lemma PayloadJoined(b: Bundle)
    ensures Joined([b.privateKey, Field(b.publicKey), Field(b.certificate), Field(b.passphrase)]) == Payload(b)
  {
    var p, q, r, s := b.privateKey, Field(b.publicKey), Field(b.certificate), Field(b.passphrase);
    JoinedPushed([], p);
    JoinedPushed([p], q);
    JoinedPushed([p, q], r);
    JoinedPushed([p, q, r], s);
    assert [] + [p] == [p] && [p] + [q] == [p, q] && [p, q] + [r] == [p, q, r] && [p, q, r] + [s] == [p, q, r, s];
  }

  /** The loop over the fields, writing each non-empty one at a moving offset. */
  method WritePayload(envelope: array<byte>, header: Bytestring, fields: seq<Bytestring>)
    requires envelope[..] == header + Zeros(|Joined(fields)|)
    modifies envelope
    ensures envelope[..] == header + Joined(fields)
  {
    var n := envelope.Length;
    var offset := |header|;
    for i := 0 to |fields|
      invariant offset == |header| + |Joined(fields[..i])| <= n == |header| + |Joined(fields)|
      invariant envelope[..] == header + Joined(fields[..i]) + Zeros(n - offset)
    {
      JoinedPrefix(fields, i + 1);
      assert fields[..i + 1][..i] == fields[..i];
      if |fields[i]| > 0 {
        SetBehind(envelope, header + Joined(fields[..i]), offset, fields[i]);
        offset := offset + |fields[i]|;
      }
    }
    assert fields[..|fields|] == fields;
  }

  /** `encodeManagedSshKeyBundleEnvelope`; null is the thrown error. */
  method EncodeEnvelope(privateKey: array<byte>, publicKey: array?<byte>, certificate: array?<byte>, passphrase: array?<byte>)
    returns (envelope: array?<byte>)
    ensures var b := BundleOf(privateKey, publicKey, certificate, passphrase);
      && (envelope != null <==> Valid(b))
      && (envelope == null <==>
            || privateKey.Length == 0 || privateKey.Length > 4 * 1024 * 1024 || Length(publicKey) > 1024 * 1024
            || Length(certificate) > 1024 * 1024 || Length(passphrase) > 64 * 1024)
      && (envelope != null ==> fresh(envelope) && envelope[..] == Encode(b))
  {
    var b := BundleOf(privateKey, publicKey, certificate, passphrase);
    if !Valid(b) {
      return null;
    }
    var p, q, r, s := privateKey.Length, Length(publicKey), Length(certificate), Length(passphrase);
    var n := HEADER_BYTES + p + q + r + s;
    var e := new byte[n](_ => 0);
    assert e[..] == Zeros(n);
    WriteHeader(e, p, q, r, s);
    var fields := [b.privateKey, Field(b.publicKey), Field(b.certificate), Field(b.passphrase)];
    PayloadJoined(b);
    WritePayload(e, Header(p, q, r, s), fields);
    envelope := e;
  }

  // ----- zeroing -----

  predicate Zeroed(a: array?<byte>)
    reads a
  {
    a != null ==> forall i :: 0 <= i < a.Length ==> a[i] == 0
  }

  /** `a?.fill(0)` */
  method Zeroize(a: array?<byte>)
    modifies a
    ensures Zeroed(a)
  {
    if a != null {
      forall i | 0 <= i < a.Length {
        a[i] := 0;
      }
    }
  }

  /** `withZeroizedManagedSshKeyBundle`: staging sees the encoded envelope, and every
      buffer is zero afterwards, whether the bundle was refused or staging failed or
      not. */
  method WithZeroizedBundle<T>(
    privateKey: array<byte>, publicKey: array?<byte>, certificate: array?<byte>, passphrase: array?<byte>,
    stage: Bytestring -> Staged<T>)
    returns (result: Staged<T>, envelope: array?<byte>)
    modifies privateKey, publicKey, certificate, passphrase
    ensures var b := old(BundleOf(privateKey, publicKey, certificate, passphrase));
      result == if Valid(b) then stage(Encode(b)) else Failed("MANAGED_SSH_KEY_BUNDLE_INVALID")
    ensures Zeroed(privateKey) && Zeroed(publicKey) && Zeroed(certificate) && Zeroed(passphrase)
    ensures Zeroed(envelope) && (envelope != null ==> fresh(envelope))
  {
    envelope := EncodeEnvelope(privateKey, publicKey, certificate, passphrase);
    result := if envelope == null then Failed("MANAGED_SSH_KEY_BUNDLE_INVALID") else stage(envelope[..]);
    Zeroize(envelope);
    Zeroize(privateKey);
    Zeroize(publicKey);
    Zeroize(certificate);
    Zeroize(passphrase);
  }
}

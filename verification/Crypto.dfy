/**
 * Field encryption across key rotation, and webhook signatures. The cipher, the MAC and
 * base64 are parameters; what is assumed of them is said in `Ideal` and `IdealMac`.
 */
module Crypto {
  import opened Durations
  import opened Strings
  import opened Wrappers

  // ── Encrypted fields ───────────────────────────────────────────────────────

  type Key = nat
  type Bytes = string

  datatype Sealed = Sealed(tag: Bytes, data: Bytes)

  datatype Suite = Suite(
    seal: (Key, Bytes, string) -> Sealed,
    unseal: (Key, Bytes, Sealed) -> Option<string>,
    encode: Bytes -> string,
    decode: string -> Bytes)

  datatype Keys = Keys(current: Key, previous: Option<Key>)

  datatype Decrypted = Plain(text: string) | Malformed | Unable

  /** Opens under the key that sealed it and under no other; base64 reads back and has no ':'. */
  ghost predicate Ideal(s: Suite) {
    && (forall k, iv, text, k' :: s.unseal(k', iv, s.seal(k, iv, text)) == if k' == k then Some(text) else None)
    && (forall b :: s.decode(s.encode(b)) == b && ':' !in s.encode(b))
  }

  const VERSION := "v1"

  function Envelope(s: Suite, iv: Bytes, sealed: Sealed): string {
    Join([VERSION, s.encode(iv), s.encode(sealed.tag), s.encode(sealed.data)], ':')
  }

  /** An empty value is refused. */
  function Encrypt(s: Suite, keys: Keys, iv: Bytes, text: string): Option<string> {
    if text == "" then None else Some(Envelope(s, iv, s.seal(keys.current, iv, text)))
  }

  function CandidateKeys(keys: Keys): seq<Key> {
    if keys.previous.Some? then [keys.current, keys.previous.value] else [keys.current]
  }

  /** The first candidate key that opens it. */
  function FirstOpening(s: Suite, candidates: seq<Key>, iv: Bytes, sealed: Sealed): Decrypted {
    if candidates == [] then Unable
    else
      match s.unseal(candidates[0], iv, sealed)
      case Some(text) => Plain(text)
      case None => FirstOpening(s, candidates[1..], iv, sealed)
  }

  function Decrypt(s: Suite, keys: Keys, envelope: string): Decrypted {
    var parts := Split(envelope, ':');
    if |parts| != 4 then Malformed
    else FirstOpening(s, CandidateKeys(keys), s.decode(parts[1]), Sealed(s.decode(parts[2]), s.decode(parts[3])))
  }

  function NeedsRotation(s: Suite, keys: Keys, envelope: string): bool {
    var parts := Split(envelope, ':');
    && keys.previous.Some?
    && |parts| == 4
    && s.unseal(keys.current, s.decode(parts[1]), Sealed(s.decode(parts[2]), s.decode(parts[3]))).None?
  }

  lemma EnvelopeParts(s: Suite, iv: Bytes, sealed: Sealed)
    requires Ideal(s)
    ensures Split(Envelope(s, iv, sealed), ':') == [VERSION, s.encode(iv), s.encode(sealed.tag), s.encode(sealed.data)]
  {
    JoinSplits([VERSION, s.encode(iv), s.encode(sealed.tag), s.encode(sealed.data)], ':');
  }

  function Opening(result: Option<string>, otherwise: Decrypted): Decrypted {
    if result.Some? then Plain(result.value) else otherwise
  }

  lemma OneTried(s: Suite, key: Key, iv: Bytes, sealed: Sealed)
    ensures FirstOpening(s, [key], iv, sealed) == Opening(s.unseal(key, iv, sealed), Unable)
  {
  }

  /** The current key first, then the previous one if there is one. */
  lemma CandidatesTried(s: Suite, keys: Keys, iv: Bytes, sealed: Sealed)
    ensures FirstOpening(s, CandidateKeys(keys), iv, sealed) ==
              Opening(s.unseal(keys.current, iv, sealed),
                      if keys.previous.Some? then Opening(s.unseal(keys.previous.value, iv, sealed), Unable) else Unable)
  {
    if keys.previous.Some? {
      assert CandidateKeys(keys)[1..] == [keys.previous.value];
      OneTried(s, keys.previous.value, iv, sealed);
    } else {
      assert CandidateKeys(keys)[1..] == [];
    }
  }

  /** What a sealed text looks like, and that only an empty value is refused. */
  lemma SealedLooks(s: Suite, keys: Keys, iv: Bytes, text: string)
    ensures Encrypt(s, keys, iv, text).None? <==> text == ""
    ensures text != "" ==>
              var sealed := s.seal(keys.current, iv, text);
              Encrypt(s, keys, iv, text).value == "v1:" + s.encode(iv) + ":" + s.encode(sealed.tag) + ":" + s.encode(sealed.data)
  {
    var sealed := s.seal(keys.current, iv, text);
    JoinFour("v1", s.encode(iv), s.encode(sealed.tag), s.encode(sealed.data));
  }

  lemma JoinFour(a: string, b: string, c: string, d: string)
    ensures Join([a, b, c, d], ':') == a + ":" + b + ":" + c + ":" + d
  {
    assert [a, b, c, d][..3] == [a, b, c] && [a, b, c][..2] == [a, b] && [a, b][..1] == [a];
    assert Join([a, b], ':') == a + [':'] + b;
    assert Join([a, b, c], ':') == a + [':'] + b + [':'] + c;
  }

  /** A text is malformed exactly when it is not of four parts; otherwise it opens, or it does not. */
  lemma MalformedIff(s: Suite, keys: Keys, envelope: string)
    ensures Decrypt(s, keys, envelope) == Malformed <==> |Split(envelope, ':')| != 4
  {
    var parts := Split(envelope, ':');
    if |parts| == 4 {
      CandidatesTried(s, keys, s.decode(parts[1]), Sealed(s.decode(parts[2]), s.decode(parts[3])));
    }
  }

  /**
   * What becomes of a value sealed under `sealing`, read with any later pair of keys: it
   * comes back exactly when that key is still one of the two, and asks to be re-encrypted
   * exactly when there is a previous key and it is not the current one.
   */
  lemma ReadWithAnyKeys(s: Suite, sealing: Keys, iv: Bytes, text: string, keys: Keys)
    requires Ideal(s) && text != ""
    ensures var envelope := Encrypt(s, sealing, iv, text).value;
            && Decrypt(s, keys, envelope) == (if sealing.current in CandidateKeys(keys) then Plain(text) else Unable)
            && (NeedsRotation(s, keys, envelope) <==> keys.previous.Some? && sealing.current != keys.current)
  {
    var sealed := s.seal(sealing.current, iv, text);
    EnvelopeParts(s, iv, sealed);
    CandidatesTried(s, keys, iv, sealed);
    assert Sealed(s.decode(s.encode(sealed.tag)), s.decode(s.encode(sealed.data))) == sealed;
    assert s.unseal(keys.current, iv, sealed) == if sealing.current == keys.current then Some(text) else None;
    assert keys.previous.Some? ==>
        s.unseal(keys.previous.value, iv, sealed) == if sealing.current == keys.previous.value then Some(text) else None;
  }

  /** A rotation breaks nothing: old values still read, and only they ask to be re-encrypted; doing so settles them. */
  lemma RotationRoundTrip(s: Suite, before: Keys, next: Key, iv: Bytes, iv': Bytes, text: string)
    requires Ideal(s) && text != "" && next != before.current
    ensures var rotated := Keys(next, Some(before.current));
            var stale, renewed := Encrypt(s, before, iv, text).value, Encrypt(s, rotated, iv', text).value;
            && Decrypt(s, before, stale) == Plain(text) && !NeedsRotation(s, before, stale)
            && Decrypt(s, rotated, stale) == Plain(text) && NeedsRotation(s, rotated, stale)
            && Decrypt(s, rotated, renewed) == Plain(text) && !NeedsRotation(s, rotated, renewed)
  {
    var rotated := Keys(next, Some(before.current));
    ReadWithAnyKeys(s, before, iv, text, before);
    ReadWithAnyKeys(s, before, iv, text, rotated);
    ReadWithAnyKeys(s, rotated, iv', text, rotated);
  }

  /** A value left alone through two rotations can no longer be read. */
  lemma TwoRotationsLoseTheValue(s: Suite, first: Keys, second: Key, third: Key, iv: Bytes, text: string)
    requires Ideal(s) && text != "" && first.current !in {second, third}
    ensures Decrypt(s, Keys(third, Some(second)), Encrypt(s, first, iv, text).value) == Unable
  {
    ReadWithAnyKeys(s, first, iv, text, Keys(third, Some(second)));
  }

  /**
   * For any text at all: with a previous key configured, "needs rotation" is said of what
   * only the previous key opens, and also of every four-part text that neither key opens.
   */
  lemma NeedsRotationIff(s: Suite, keys: Keys, envelope: string)
    ensures NeedsRotation(s, keys, envelope) <==>
              && keys.previous.Some?
              && Decrypt(s, keys, envelope) != Malformed
              && Decrypt(s, Keys(keys.current, None), envelope) == Unable
  {
    var parts := Split(envelope, ':');
    if |parts| == 4 {
      var iv, sealed := s.decode(parts[1]), Sealed(s.decode(parts[2]), s.decode(parts[3]));
      CandidatesTried(s, Keys(keys.current, None), iv, sealed);
      CandidatesTried(s, keys, iv, sealed);
    }
  }

  // ── Webhook signatures ─────────────────────────────────────────────────────

  datatype Verification = Valid | Missing | BadHeader | OutsideTolerance | Mismatch

  /** A MAC in hex: distinct inputs, distinct non-empty outputs, none of the header's punctuation or space. */
  ghost predicate IdealMac(mac: (string, string) -> string) {
    && (forall k, m, k', m' :: mac(k, m) == mac(k', m') ==> k == k' && m == m')
    && (forall k, m :: Token(mac(k, m)))
  }

  /** Not empty, and none of what a header is taken apart at. */
  predicate Token(text: string) {
    text != "" && ',' !in text && '=' !in text && forall c <- text :: c !in SPACES
  }

  function Print(n: int): string {
    if n < 0 then "-" + Decimal(-n) else Decimal(n)
  }

  /** `number` reads header text as a whole number of seconds; it must read what `Print` writes. */
  ghost predicate Reads(number: string -> Option<int>) {
    forall n :: number(Print(n)) == Some(n)
  }

  function SignedText(timestamp: int, body: string): string {
    Print(timestamp) + "." + body
  }

  function Sign(mac: (string, string) -> string, body: string, secret: string, now: nat): string {
    var timestamp := now / 1000;
    Join(["t=" + Print(timestamp), "v1=" + mac(secret, SignedText(timestamp, body))], ',')
  }

  /** A segment's key, and what stands between its first '=' and the next. */
  function KeyOf(segment: string): string {
    Trim(Split(segment, '=')[0])
  }

  function ValueOf(segment: string): string {
    var parts := Split(segment, '=');
    if |parts| > 1 then Trim(parts[1]) else ""
  }

  /** The last segment of that name wins. */
  function Field(segments: seq<string>, name: string): Option<string> {
    if segments == [] then None
    else if KeyOf(segments[|segments| - 1]) == name then Some(ValueOf(segments[|segments| - 1]))
    else Field(segments[..|segments| - 1], name)
  }

  /** A field given twice counts as given last. */
  lemma LastFieldCounts(before: seq<string>, last: string, name: string)
    ensures Field(before + [last], name) == if KeyOf(last) == name then Some(ValueOf(last)) else Field(before, name)
  {
  }

  function Distance(a: int, b: int): nat {
    if a < b then b - a else a - b
  }

  function Verify(mac: (string, string) -> string, number: string -> Option<int>,
                  header: Option<string>, body: string, secret: string, tolerance: nat, now: nat): Verification
  {
    if header.None? || header.value == "" then Missing
    else
      var segments := Split(header.value, ',');
      var t, v1 := Field(segments, "t"), Field(segments, "v1");
      if t.None? || number(t.value).None? || v1.None? || v1.value == "" then BadHeader
      else
        var timestamp := number(t.value).value;
        if Distance(now / 1000, timestamp) > tolerance then OutsideTolerance
        else if mac(secret, SignedText(timestamp, body)) == v1.value then Valid
        else Mismatch
  }

  lemma TokenTrims(text: string)
    requires Token(text)
    ensures Trim(text) == text
  {
  }

  lemma DigitsAreToken(n: nat)
    ensures Token(Decimal(n))
  {
  }

  /** A segment made of a name and a token reads as that name and that token. */
  lemma SegmentReads(name: string, value: string)
    requires Token(name) && Token(value)
    ensures KeyOf(name + "=" + value) == name && ValueOf(name + "=" + value) == value
    ensures ',' !in name + "=" + value
  {
    assert [name, value][..1] == [name];
    assert Join([name, value], '=') == name + "=" + value;
    JoinSplits([name, value], '=');
    TokenTrims(name);
    TokenTrims(value);
  }

  /** Space around a name or a value does not count. */
  lemma PaddedSegmentReads(a: string, name: string, b: string, c: string, value: string, d: string)
    requires Token(name) && Token(value) && Blank(a) && Blank(b) && Blank(c) && Blank(d)
    ensures KeyOf(a + (name + b) + "=" + (c + (value + d))) == name
    ensures ValueOf(a + (name + b) + "=" + (c + (value + d))) == value
  {
    var left, right := a + (name + b), c + (value + d);
    assert [left, right][..1] == [left];
    assert Join([left], '=') == left && Join([left, right], '=') == left + ['='] + right;
    assert left + "=" + right == Join([left, right], '=');
    JoinSplits([left, right], '=');
    TrimmedIs(a, name, b);
    TrimmedIs(c, value, d);
  }

  lemma SignedHeaderReads(mac: (string, string) -> string, body: string, secret: string, now: nat)
    requires IdealMac(mac)
    ensures var header := Sign(mac, body, secret, now);
            && header != ""
            && Field(Split(header, ','), "t") == Some(Print(now / 1000))
            && Field(Split(header, ','), "v1") == Some(mac(secret, SignedText(now / 1000, body)))
  {
    DigitsAreToken(now / 1000);
    TwoFieldsRead(Print(now / 1000), mac(secret, SignedText(now / 1000, body)));
  }

  lemma TwoFieldsRead(timestamp: string, signature: string)
    requires Token(timestamp) && Token(signature)
    ensures var header := Join(["t=" + timestamp, "v1=" + signature], ',');
            && header != ""
            && Field(Split(header, ','), "t") == Some(timestamp)
            && Field(Split(header, ','), "v1") == Some(signature)
  {
    var first, second := "t=" + timestamp, "v1=" + signature;
    assert "t" + "=" + timestamp == first && "v1" + "=" + signature == second;
    SegmentReads("t", timestamp);
    SegmentReads("v1", signature);
    JoinSplits([first, second], ',');
    FieldOfTwo(first, second);
    assert Join([first, second], ',') != "";
  }

  lemma FieldOfTwo(first: string, second: string)
    requires KeyOf(first) != KeyOf(second)
    ensures Field([first, second], KeyOf(first)) == Some(ValueOf(first))
    ensures Field([first, second], KeyOf(second)) == Some(ValueOf(second))
  {
  }

  /**
   * A header signed at `signedAt` verifies at `now` exactly when the two clocks are within
   * tolerance and both sides mean the same body under the same secret.
   */
  lemma {:induction false} SignedVerifiesIff(mac: (string, string) -> string, number: string -> Option<int>,
                          body: string, secret: string, signedAt: nat,
                          body': string, secret': string, tolerance: nat, now: nat)
    requires IdealMac(mac) && Reads(number)
    ensures (Verify(mac, number, Some(Sign(mac, body, secret, signedAt)), body', secret', tolerance, now) == Valid)
              <==> (Distance(now / 1000, signedAt / 1000) <= tolerance && body' == body && secret' == secret)
  {
    SignedHeaderReads(mac, body, secret, signedAt);
    SameSignedText(signedAt / 1000, body, body');
    assert number(Print(signedAt / 1000)) == Some(signedAt / 1000);
  }

  /** Everything else a header can come to: missing, unreadable, too far off, or signed for something else. */
  lemma VerifyAnswers(mac: (string, string) -> string, number: string -> Option<int>,
                      header: Option<string>, body: string, secret: string, tolerance: nat, now: nat)
    ensures var result := Verify(mac, number, header, body, secret, tolerance, now);
            && (result == Missing <==> header.None? || header.value == "")
            && (header.Some? && header.value != "" ==>
                  var t, v1 := Field(Split(header.value, ','), "t"), Field(Split(header.value, ','), "v1");
                  && (result == BadHeader <==> t.None? || number(t.value).None? || v1.None? || v1.value == "")
                  && (result != BadHeader ==>
                        && t.Some? && number(t.value).Some? && v1.Some?
                        && var off := now / 1000 - number(t.value).value;
                           && (result == OutsideTolerance <==> off > tolerance || -off > tolerance)
                           && (result == Valid <==> off <= tolerance && 0 <= off + tolerance
                                                    && v1.value == mac(secret, Print(number(t.value).value) + "." + body))))
  {
  }

  /** A signed header, as it is sent. */
  lemma SignedLooks(mac: (string, string) -> string, body: string, secret: string, now: nat)
    ensures Sign(mac, body, secret, now) ==
              "t=" + Decimal(now / 1000) + ",v1=" + mac(secret, Decimal(now / 1000) + "." + body)
  {
    var first, second := "t=" + Print(now / 1000), "v1=" + mac(secret, SignedText(now / 1000, body));
    assert [first, second][..1] == [first];
    assert Join([first, second], ',') == Join([first], ',') + [','] + second;
    assert first + [','] + second == "t=" + Print(now / 1000) + ",v1=" + mac(secret, SignedText(now / 1000, body));
  }

  lemma SameSignedText(timestamp: int, a: string, b: string)
    ensures SignedText(timestamp, a) == SignedText(timestamp, b) <==> a == b
  {
    var prefix := Print(timestamp) + ".";
    assert SignedText(timestamp, a)[|prefix|..] == a;
    assert SignedText(timestamp, b)[|prefix|..] == b;
  }

  /** Any header at all vouches for one body only, under one secret, and for no longer than twice the tolerance. */
  lemma {:induction false} HeaderVouchesOnce(mac: (string, string) -> string, number: string -> Option<int>,
          header: Option<string>,
                          a: string, secretA: string, nowA: nat, b: string, secretB: string, nowB: nat, tolerance: nat)
    requires IdealMac(mac)
    requires Verify(mac, number, header, a, secretA, tolerance, nowA) == Valid
    requires Verify(mac, number, header, b, secretB, tolerance, nowB) == Valid
    ensures a == b && secretA == secretB && Distance(nowA / 1000, nowB / 1000) <= 2 * tolerance
  {
    var t := Field(Split(header.value, ','), "t");
    SameSignedText(number(t.value).value, a, b);
  }
}

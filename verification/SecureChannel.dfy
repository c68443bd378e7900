/** The secure channel between the controller and the official API: two key directions, a
    sequence number in every envelope, and a replay window on the receiving side.

    The cipher is a parameter; all that is asked of it is that opening undoes sealing and
    that a sealed text is 16 bytes longer. */
module SecureChannel {

  import opened Basics
  import opened Words
  import opened ReplayWindow

  type Bytes = seq<byte>

  const ENVELOPE_VERSION: byte := 1
  const NONCE_SIZE := 12
  const HEADER_SIZE := 9
  const TAG_SIZE := 16

  type Nonce = n: Bytes | |n| == NONCE_SIZE witness seq(NONCE_SIZE, _ => 0)

  /** Arguments: key, nonce, text. */
  datatype Cipher = Cipher(seal: (Bytes, Nonce, Bytes) -> Bytes, open: (Bytes, Nonce, Bytes) -> Option<Bytes>)

  ghost predicate Correct(cipher: Cipher) {
    forall key, nonce, text ::
      && |cipher.seal(key, nonce, text)| == |text| + TAG_SIZE
      && cipher.open(key, nonce, cipher.seal(key, nonce, text)) == Some(text)
  }

  // ---------- big-endian numbers ----------

  function BigEndian(n: nat, x: nat): (b: Bytes)
    ensures |b| == n
  {
    if n == 0 then [] else BigEndian(n - 1, x / 256) + [x % 256]
  }

  function FromBigEndian(b: Bytes): nat {
    if b == [] then 0 else 256 * FromBigEndian(b[..|b| - 1]) + b[|b| - 1]
  }

  lemma {:induction false} BigEndianRoundTrip(n: nat, x: nat)
    requires x < Pow2(8 * n)
    ensures FromBigEndian(BigEndian(n, x)) == x
  {
    if n > 0 {
      Pow2Plus8(8 * (n - 1));
      assert BigEndian(n, x)[..n - 1] == BigEndian(n - 1, x / 256);
      BigEndianRoundTrip(n - 1, x / 256);
    }
  }

  lemma {:induction false} FromBigEndianBound(b: Bytes)
    ensures FromBigEndian(b) < Pow2(8 * |b|)
  {
    if b != [] {
      Pow2Plus8(8 * (|b| - 1));
      FromBigEndianBound(b[..|b| - 1]);
    }
  }

  /** The byte of a number at a place, counted from the lowest. */
  function ByteAt(x: nat, place: nat): byte {
    if place == 0 then x % 256 else ByteAt(x / 256, place - 1)
  }

  /** The highest byte comes first. */
  lemma {:induction false} BigEndianByte(n: nat, x: nat, i: nat)
    requires i < n
    ensures BigEndian(n, x)[i] == ByteAt(x, n - 1 - i)
  {
    if i < n - 1 {
      BigEndianByte(n - 1, x / 256, i);
    }
  }

  lemma {:induction false} LeadingZeros(n: nat, b: Bytes)
    ensures FromBigEndian(seq(n, _ => 0) + b) == FromBigEndian(b)
    decreases n + |b|
  {
    var all: Bytes := seq(n, _ => 0) + b;
    if b != [] {
      assert all[..|all| - 1] == seq(n, _ => 0) + b[..|b| - 1];
      LeadingZeros(n, b[..|b| - 1]);
    } else if n > 0 {
      assert all[..n - 1] == seq(n - 1, _ => 0) + [];
      LeadingZeros(n - 1, []);
    }
  }

  // ---------- nonces ----------

  function Xor(a: nat, b: nat): nat
    decreases a + b
  {
    if a == 0 && b == 0 then 0
    else 2 * Xor(a / 2, b / 2) + (if a % 2 == b % 2 then 0 else 1)
  }

  lemma {:induction false} XorCancels(a: nat, b: nat, c: nat)
    requires Xor(a, b) == Xor(a, c)
    ensures b == c
    decreases a + b + c
  {
    if a != 0 || b != 0 || c != 0 {
      XorUnfold(a, b);
      XorUnfold(a, c);
      XorCancels(a / 2, b / 2, c / 2);
    }
  }

  lemma XorUnfold(a: nat, b: nat)
    ensures Xor(a, b) == 2 * Xor(a / 2, b / 2) + (if a % 2 == b % 2 then 0 else 1)
  {
  }

  /** Exclusive or, bit by bit. */
  lemma {:induction false} XorBit(a: nat, b: nat, d: nat)
    ensures Bit(Xor(a, b), d) <==> (Bit(a, d) != Bit(b, d))
    decreases d
  {
    XorUnfold(a, b);
    if d > 0 {
      XorBit(a / 2, b / 2, d - 1);
    }
  }

  lemma {:induction false} XorUndoes(a: nat, b: nat)
    ensures Xor(a, Xor(a, b)) == b
    decreases a + b
  {
    if a != 0 || b != 0 {
      XorUndoes(a / 2, b / 2);
      XorUnfold(a, b);
      XorUnfold(a, Xor(a, b));
    }
  }

  lemma {:induction false} XorFits(a: nat, b: nat, n: nat)
    requires a < Pow2(n) && b < Pow2(n)
    ensures Xor(a, b) < Pow2(n)
  {
    if a != 0 || b != 0 {
      XorFits(a / 2, b / 2, n - 1);
    }
  }

  function XorByte(a: byte, b: byte): byte {
    Pow2Plus8(0);
    XorFits(a, b, 8);
    Xor(a, b)
  }

  /** The direction's base nonce with the left-padded sequence number folded in, the
      construction of section 5.3 of RFC 8446. */
  function SequenceNonce(base: Nonce, sequence: uint64): Nonce {
    var padded := [0, 0, 0, 0] + BigEndian(8, sequence);
    seq(NONCE_SIZE, i requires 0 <= i < NONCE_SIZE => XorByte(base[i], padded[i]))
  }

  /** A nonce is the base with the number folded into its last eight bytes: each bit of the number,
      highest byte first, flips the bit of the base at its place, and no other bit is flipped. */
  ghost predicate FoldsIn(base: Nonce, sequence: uint64, nonce: Nonce) {
    forall i: nat, d: nat | i < NONCE_SIZE ::
      Bit(nonce[i], d) <==> (Bit(base[i], d) != (i >= 4 && Bit(ByteAt(sequence, 11 - i), d)))
  }

  lemma NonceFoldsInTheNumber(base: Nonce, sequence: uint64)
    ensures FoldsIn(base, sequence, SequenceNonce(base, sequence))
  {
    var nonce := SequenceNonce(base, sequence);
    forall i: nat, d: nat | i < NONCE_SIZE
      ensures Bit(nonce[i], d) <==> (Bit(base[i], d) != (i >= 4 && Bit(ByteAt(sequence, 11 - i), d)))
    {
      if i >= 4 {
        BigEndianByte(8, sequence, i - 4);
        XorBit(base[i], BigEndian(8, sequence)[i - 4], d);
      } else {
        XorBit(base[i], 0, d);
        ZeroHasNoBits(d);
      }
    }
  }

  /** Xor-ing the base away again leaves twelve bytes that read as the number. */
  lemma BaseXorNonceIsTheNumber(base: Nonce, sequence: uint64)
    ensures var nonce := SequenceNonce(base, sequence);
      && (forall i: nat | i < 4 :: nonce[i] == base[i])
      && FromBigEndian(seq(NONCE_SIZE, i requires 0 <= i < NONCE_SIZE => XorByte(base[i], nonce[i]))) == sequence
  {
    var nonce := SequenceNonce(base, sequence);
    var padded: Bytes := [0, 0, 0, 0] + BigEndian(8, sequence);
    var unmasked: Bytes := seq(NONCE_SIZE, i requires 0 <= i < NONCE_SIZE => XorByte(base[i], nonce[i]));
    forall i: nat | i < NONCE_SIZE
      ensures unmasked[i] == padded[i]
    {
      XorUndoes(base[i], padded[i]);
    }
    forall i: nat | i < 4
      ensures nonce[i] == base[i]
    {
      XorWithZero(base[i]);
    }
    assert unmasked == seq(4, _ => 0) + BigEndian(8, sequence);
    LeadingZeros(4, BigEndian(8, sequence));
    PowOf64();
    BigEndianRoundTrip(8, sequence);
  }

  lemma {:induction false} XorWithZero(a: nat)
    ensures Xor(a, 0) == a
  {
    if a != 0 {
      XorWithZero(a / 2);
    }
  }

  /** In one direction, different sequence numbers never share a nonce. */
  lemma NonceIsInjective(base: Nonce, s: uint64, t: uint64)
    requires SequenceNonce(base, s) == SequenceNonce(base, t)
    ensures s == t
  {
    var a, b := [0, 0, 0, 0] + BigEndian(8, s), [0, 0, 0, 0] + BigEndian(8, t);
    forall i | 0 <= i < 8
      ensures BigEndian(8, s)[i] == BigEndian(8, t)[i]
    {
      assert SequenceNonce(base, s)[i + 4] == SequenceNonce(base, t)[i + 4];
      XorCancels(base[i + 4], a[i + 4], b[i + 4]);
    }
    assert BigEndian(8, s) == BigEndian(8, t);
    PowOf64();
    BigEndianRoundTrip(8, s);
    BigEndianRoundTrip(8, t);
  }

  // ---------- envelopes ----------

  /** What one end seals with, or opens with. */
  datatype Direction = Direction(key: Bytes, base: Nonce)

  function Envelope(cipher: Cipher, key: Bytes, base: Nonce, sequence: uint64, text: Bytes): Bytes {
    [ENVELOPE_VERSION] + BigEndian(8, sequence) + cipher.seal(key, SequenceNonce(base, sequence), text)
  }

  /** The version, the number in eight bytes with the highest first, and the text sealed under the
      key and the base with the number folded in. */
  ghost predicate IsEnvelope(cipher: Cipher, wire: Direction, sequence: uint64, text: Bytes, envelope: Bytes) {
    && |envelope| >= HEADER_SIZE && envelope[0] == 1
    && (forall i: nat | 1 <= i < HEADER_SIZE :: envelope[i] == ByteAt(sequence, 8 - i))
    && exists nonce: Nonce :: FoldsIn(wire.base, sequence, nonce) &&
                              envelope[HEADER_SIZE..] == cipher.seal(wire.key, nonce, text)
  }

  lemma EnvelopeLayout(cipher: Cipher, wire: Direction, sequence: uint64, text: Bytes)
    ensures IsEnvelope(cipher, wire, sequence, text, Envelope(cipher, wire.key, wire.base, sequence, text))
  {
    var nonce := SequenceNonce(wire.base, sequence);
    NonceFoldsInTheNumber(wire.base, sequence);
    var envelope := Envelope(cipher, wire.key, wire.base, sequence, text);
    forall i: nat | 1 <= i < HEADER_SIZE
      ensures envelope[i] == ByteAt(sequence, 8 - i)
    {
      BigEndianByte(8, sequence, i - 1);
    }
    assert envelope[HEADER_SIZE..] == cipher.seal(wire.key, nonce, text);
  }

  predicate WellFormed(envelope: Bytes) {
    |envelope| >= HEADER_SIZE + TAG_SIZE && envelope[0] == ENVELOPE_VERSION
  }

  function SequenceOf(envelope: Bytes): uint64
    requires WellFormed(envelope)
  {
    PowOf64();
    FromBigEndianBound(envelope[1..HEADER_SIZE]);
    FromBigEndian(envelope[1..HEADER_SIZE])
  }

  /** Opens an envelope whose number was accepted. */
  function OpenEnvelope(cipher: Cipher, key: Bytes, base: Nonce, envelope: Bytes): Option<Bytes>
    requires WellFormed(envelope)
  {
    cipher.open(key, SequenceNonce(base, SequenceOf(envelope)), envelope[HEADER_SIZE..])
  }

  lemma EnvelopeRoundTrip(cipher: Cipher, key: Bytes, base: Nonce, sequence: uint64, text: Bytes)
    requires Correct(cipher)
    ensures var envelope := Envelope(cipher, key, base, sequence, text);
      && WellFormed(envelope)
      && SequenceOf(envelope) == sequence
      && OpenEnvelope(cipher, key, base, envelope) == Some(text)
  {
    var envelope := Envelope(cipher, key, base, sequence, text);
    var sealed := cipher.seal(key, SequenceNonce(base, sequence), text);
    assert envelope[1..HEADER_SIZE] == BigEndian(8, sequence);
    assert envelope[HEADER_SIZE..] == sealed;
    PowOf64();
    BigEndianRoundTrip(8, sequence);
  }

  // ---------- the channel ----------

  /** What the key schedule derives for a session. */
  datatype Session = Session(masterKey: Bytes, agentKey: Bytes, masterNonce: Nonce, agentNonce: Nonce)

  function SendDirection(session: Session, server: bool): Direction {
    if server then Direction(session.masterKey, session.masterNonce)
    else Direction(session.agentKey, session.agentNonce)
  }

  function ReceiveDirection(session: Session, server: bool): Direction {
    if server then Direction(session.agentKey, session.agentNonce)
    else Direction(session.masterKey, session.masterNonce)
  }

  datatype DecryptResult = Plaintext(text: Bytes) | Invalid | Replayed | Undecryptable

  class Channel {
    const cipher: Cipher
    const send: Direction
    const receive: Direction
    var sendSeq: uint64
    var window: Window
    /** Everything encrypted so far, and every sequence number accepted so far. */
    ghost var sent: seq<Bytes>
    ghost var accepted: set<uint64>

    ghost predicate Valid()
      reads this
    {
      && sendSeq == |sent| % TWO_64
      && Tracks(window, accepted)
    }

    constructor (cipher: Cipher, session: Session, server: bool)
      ensures Valid() && this.cipher == cipher
      ensures send == SendDirection(session, server) && receive == ReceiveDirection(session, server)
      ensures server ==> send.key == session.masterKey && send.base == session.masterNonce
      ensures !server ==> send.key == session.agentKey && send.base == session.agentNonce
      ensures sent == [] && accepted == {} && window == EMPTY
    {
      this.cipher := cipher;
      var sendKey, receiveKey := session.agentKey, session.masterKey;
      var sendNonce, receiveNonce := session.agentNonce, session.masterNonce;
      if server {
        sendKey, receiveKey := session.masterKey, session.agentKey;
        sendNonce, receiveNonce := session.masterNonce, session.agentNonce;
      }
      send, receive := Direction(sendKey, sendNonce), Direction(receiveKey, receiveNonce);
      sendSeq, window := 0, EMPTY;
      sent, accepted := [], {};
      new;
      RunTracks([]);
      assert Accepted([]) == {};
    }

    /** The `n`-th text is sealed under sequence number `n`, counted from 1 and wrapping. */
    method Encrypt(plaintext: Bytes) returns (envelope: Bytes)
      requires Valid()
      modifies this`sendSeq, this`sent
      ensures Valid() && sent == old(sent) + [plaintext]
      ensures envelope == Envelope(cipher, send.key, send.base, |sent| % TWO_64, plaintext)
      ensures IsEnvelope(cipher, send, |sent| % TWO_64, plaintext, envelope)
    {
      var sequence: uint64 := (sendSeq + 1) % TWO_64;
      sendSeq := sequence;
      WrappedIncrement(|sent|);
      sent := sent + [plaintext];
      assert sequence == |sent| % TWO_64;
      EnvelopeLayout(cipher, send, sequence, plaintext);
      var nonce := SequenceNonce(send.base, sequence);
      var ciphertext := cipher.seal(send.key, nonce, plaintext);
      envelope := [ENVELOPE_VERSION] + BigEndian(8, sequence) + ciphertext;
    }

    /** For an arbitrary envelope: the number is looked at before the cipher is, a number is
        accepted exactly when it is fresh, and only then can a text come out. */
    method Decrypt(envelope: Bytes) returns (result: DecryptResult)
      requires Valid()
      modifies this`window, this`accepted
      ensures Valid()
      ensures result == Invalid <==> |envelope| < 1 + 8 + 16 || envelope[0] != 1
      ensures WellFormed(envelope) ==>
        var s := SequenceOf(envelope);
        if Fresh(old(accepted), old(window).max, s) then
          && accepted == old(accepted) + {s} && window == Accept(old(window), s).0
          && result == match OpenEnvelope(cipher, receive.key, receive.base, envelope)
                       case Some(text) => Plaintext(text)
                       case None => Undecryptable
        else
          result == Replayed
      ensures result in {Invalid, Replayed} ==> accepted == old(accepted) && window == old(window)
      ensures WellFormed(envelope) && result != Replayed ==>
        exists nonce: Nonce :: FoldsIn(receive.base, SequenceOf(envelope), nonce) &&
          cipher.open(receive.key, nonce, envelope[HEADER_SIZE..]) ==
          (if result.Plaintext? then Some(result.text) else None)
    {
      if |envelope| < HEADER_SIZE + TAG_SIZE || envelope[0] != ENVELOPE_VERSION {
        return Invalid;
      }
      var sequence := SequenceOf(envelope);
      var ok := AcceptSequence(sequence);
      if !ok {
        return Replayed;
      }
      var nonce := SequenceNonce(receive.base, sequence);
      NonceFoldsInTheNumber(receive.base, sequence);
      var plaintext := cipher.open(receive.key, nonce, envelope[HEADER_SIZE..]);
      match plaintext {
        case Some(text) => return Plaintext(text);
        case None => return Undecryptable;
      }
    }

    /** The bitmap code. */
    method AcceptSequence(sequence: uint64) returns (ok: bool)
      requires Valid()
      modifies this`window, this`accepted
      ensures Valid()
      ensures ok <==> Fresh(old(accepted), old(window).max, sequence)
      ensures (window, ok) == Accept(old(window), sequence)
      ensures accepted == if ok then old(accepted) + {sequence} else old(accepted)
    {
      AcceptRefines(window, sequence, accepted);
      if sequence == 0 {
        return false;
      }
      if sequence > window.max {
        var shift := sequence - window.max;
        if shift >= 64 {
          window := window.(bits := 0);
        } else {
          window := window.(bits := ShiftLeft64(window.bits, shift));
        }
        window := window.(max := sequence);
        window := window.(bits := OrBit64(window.bits, 0));
        accepted := accepted + {sequence};
        return true;
      }
      var difference := window.max - sequence;
      if difference >= 64 || Bit(window.bits, difference) {
        return false;
      }
      window := window.(bits := OrBit64(window.bits, difference));
      accepted := accepted + {sequence};
      return true;
    }
  }

  // ---------- two ends ----------

  /** Each end receives with the key and nonce the other sends with. */
  lemma EndsMatch(session: Session, server: bool)
    ensures SendDirection(session, server) == ReceiveDirection(session, !server)
  {
  }

  /** The number an envelope claims; a malformed one counts as 0, which no window accepts. */
  function NumberOf(envelope: Bytes): uint64 {
    if WellFormed(envelope) then SequenceOf(envelope) else 0
  }

  function Numbers(envelopes: seq<Bytes>): (r: seq<uint64>)
    ensures |r| == |envelopes| && forall i | 0 <= i < |envelopes| :: r[i] == NumberOf(envelopes[i])
  {
    seq(|envelopes|, i requires 0 <= i < |envelopes| => NumberOf(envelopes[i]))
  }

  /** What a fresh end that receives in a direction returns for the `i`-th of the envelopes. */
  function Returned(cipher: Cipher, wire: Direction, envelopes: seq<Bytes>, i: nat): DecryptResult
    requires i < |envelopes|
  {
    if !WellFormed(envelopes[i]) then Invalid
    else if !Verdict(Numbers(envelopes), i) then Replayed
    else
      match OpenEnvelope(cipher, wire.key, wire.base, envelopes[i])
      case Some(text) => Plaintext(text)
      case None => Undecryptable
  }

  lemma OneMoreCall(calls: seq<uint64>, s: uint64)
    ensures Verdict(calls + [s], |calls|) <==> Fresh(Accepted(calls), After(calls).max, s)
    ensures After(calls + [s]) == Accept(After(calls), s).0
    ensures Accepted(calls + [s]) == Accepted(calls) + if Verdict(calls + [s], |calls|) then {s} else {}
  {
    var more := calls + [s];
    assert more[..|calls|] == calls;
    VerdictIsFreshness(more, |calls|);
    PrefixVerdicts(more, |calls|);
    forall i | 0 <= i < |calls|
      ensures Verdict(more, i) == Verdict(calls, i)
    {
      assert more[..|calls|] == calls;
    }
  }

  lemma ReturnedInPrefix(cipher: Cipher, wire: Direction, envelopes: seq<Bytes>, n: nat, i: nat)
    requires i < n <= |envelopes|
    ensures Returned(cipher, wire, envelopes[..n], i) == Returned(cipher, wire, envelopes, i)
  {
    assert Numbers(envelopes[..n]) == Numbers(envelopes)[..n];
    PrefixVerdicts(Numbers(envelopes), n);
  }

  method SendOne(end: Channel, text: Bytes) returns (envelope: Bytes)
    requires end.Valid()
    modifies end`sendSeq, end`sent
    ensures end.Valid() && |end.sent| == old(|end.sent|) + 1
    ensures envelope == Envelope(end.cipher, end.send.key, end.send.base, |end.sent| % TWO_64, text)
  {
    envelope := end.Encrypt(text);
  }

  /** One end encrypts some texts. */
  method SendAll(end: Channel, texts: seq<Bytes>) returns (envelopes: seq<Bytes>)
    requires end.Valid() && end.sent == []
    modifies end`sendSeq, end`sent
    ensures |envelopes| == |texts|
    ensures forall k | 0 <= k < |texts| ::
              envelopes[k] == Envelope(end.cipher, end.send.key, end.send.base, (k + 1) % TWO_64, texts[k])
  {
    envelopes := [];
    for k := 0 to |texts|
      invariant end.Valid() && |end.sent| == k && |envelopes| == k
      invariant forall j | 0 <= j < k ::
                  envelopes[j] == Envelope(end.cipher, end.send.key, end.send.base, (j + 1) % TWO_64, texts[j])
    {
      var envelope := SendOne(end, texts[k]);
      envelopes := envelopes + [envelope];
    }
  }

  lemma NumbersOfMore(envelopes: seq<Bytes>, envelope: Bytes)
    ensures Numbers(envelopes + [envelope]) == Numbers(envelopes) + [NumberOf(envelope)]
  {
  }

  /** A receiving end that has been given some envelopes. */
  ghost predicate HasReceived(end: Channel, envelopes: seq<Bytes>)
    reads end
  {
    end.Valid() && end.window == After(Numbers(envelopes)) && end.accepted == Accepted(Numbers(envelopes))
  }

  method ReceiveOne(end: Channel, envelope: Bytes, ghost before: seq<Bytes>) returns (result: DecryptResult)
    requires HasReceived(end, before)
    modifies end`window, end`accepted
    ensures HasReceived(end, before + [envelope])
    ensures result == Returned(end.cipher, end.receive, before + [envelope], |before|)
  {
    NumbersOfMore(before, envelope);
    OneMoreCall(Numbers(before), NumberOf(envelope));
    AcceptRefines(end.window, NumberOf(envelope), end.accepted);
    result := end.Decrypt(envelope);
  }

  /** One end decrypts whatever arrives. */
  method ReceiveAll(end: Channel, envelopes: seq<Bytes>) returns (results: seq<DecryptResult>)
    requires end.Valid() && end.window == EMPTY && end.accepted == {}
    modifies end`window, end`accepted
    ensures |results| == |envelopes|
    ensures forall i | 0 <= i < |envelopes| :: results[i] == Returned(end.cipher, end.receive, envelopes, i)
  {
    results := [];
    assert Numbers([]) == [] && Accepted([]) == {};
    for i := 0 to |envelopes|
      invariant HasReceived(end, envelopes[..i]) && |results| == i
      invariant forall j | 0 <= j < i :: results[j] == Returned(end.cipher, end.receive, envelopes, j)
    {
      var result := ReceiveOne(end, envelopes[i], envelopes[..i]);
      assert envelopes[..i + 1] == envelopes[..i] + [envelopes[i]];
      ReturnedInPrefix(end.cipher, end.receive, envelopes, i + 1, i);
      results := results + [result];
    }
  }

  /** What is returned for the envelope of a text. */
  lemma GenuineReturn(cipher: Cipher, wire: Direction, envelopes: seq<Bytes>, i: nat, s: uint64, text: Bytes)
    requires Correct(cipher) && i < |envelopes| && envelopes[i] == Envelope(cipher, wire.key, wire.base, s, text)
    ensures NumberOf(envelopes[i]) == s
    ensures Returned(cipher, wire, envelopes, i) == if Verdict(Numbers(envelopes), i) then Plaintext(text) else Replayed
  {
    EnvelopeRoundTrip(cipher, wire.key, wire.base, s, text);
  }

  /** What reaches the other end: the envelope of a text that was sent, or any other bytes. */
  datatype Arrival = Genuine(index: nat) | Foreign(bytes: Bytes)

  ghost predicate FromTexts(arrivals: seq<Arrival>, texts: seq<Bytes>) {
    forall i | 0 <= i < |arrivals| :: arrivals[i].Genuine? ==> arrivals[i].index < |texts|
  }

  function Arriving(cipher: Cipher, wire: Direction, texts: seq<Bytes>, arrival: Arrival): Bytes
    requires arrival.Genuine? ==> arrival.index < |texts|
  {
    match arrival
    case Genuine(k) => Envelope(cipher, wire.key, wire.base, (k + 1) % TWO_64, texts[k])
    case Foreign(bytes) => bytes
  }

  function Traffic(cipher: Cipher, wire: Direction, texts: seq<Bytes>, arrivals: seq<Arrival>): (r: seq<Bytes>)
    requires FromTexts(arrivals, texts)
    ensures |r| == |arrivals| && forall i | 0 <= i < |arrivals| :: r[i] == Arriving(cipher, wire, texts, arrivals[i])
  {
    seq(|arrivals|, i requires 0 <= i < |arrivals| => Arriving(cipher, wire, texts, arrivals[i]))
  }

  /** Nothing arrives that opens but was not sealed by the sender: whatever opens is the envelope
      of the text with the number it claims. */
  ghost predicate Unforged(cipher: Cipher, wire: Direction, texts: seq<Bytes>, envelopes: seq<Bytes>) {
    forall i | 0 <= i < |envelopes| && WellFormed(envelopes[i]) &&
               OpenEnvelope(cipher, wire.key, wire.base, envelopes[i]).Some? ::
      var s := SequenceOf(envelopes[i]);
      1 <= s <= |texts| &&
      envelopes[i][HEADER_SIZE..] == cipher.seal(wire.key, SequenceNonce(wire.base, s), texts[s - 1])
  }

  /** Foreign bytes that open on arrival. */
  ghost predicate Opens(cipher: Cipher, wire: Direction, arrival: Arrival) {
    arrival.Foreign? && WellFormed(arrival.bytes) &&
    OpenEnvelope(cipher, wire.key, wire.base, arrival.bytes).Some?
  }

  /** The envelope of a text is delivered, unaltered, exactly if its number is fresh when it
      arrives: not used up before, by whatever envelope, and less than 64 below the highest. */
  ghost predicate DeliversWhatIsFresh(arrivals: seq<Arrival>, texts: seq<Bytes>, envelopes: seq<Bytes>,
                                      results: seq<DecryptResult>)
    requires |results| == |arrivals| == |envelopes| && FromTexts(arrivals, texts)
  {
    forall i | 0 <= i < |arrivals| :: arrivals[i].Genuine? ==>
      results[i] == if Verdict(Numbers(envelopes), i) then Plaintext(texts[arrivals[i].index]) else Replayed
  }

  /** Every text that comes out is the one sent under the number of its envelope, and no number
      yields a text twice. */
  ghost predicate ReturnsOnlySentOnce(texts: seq<Bytes>, envelopes: seq<Bytes>, results: seq<DecryptResult>)
    requires |results| == |envelopes|
  {
    (forall i | 0 <= i < |results| && results[i].Plaintext? ::
       1 <= NumberOf(envelopes[i]) <= |texts| && results[i].text == texts[NumberOf(envelopes[i]) - 1]) &&
    forall i, j | 0 <= i < j < |results| && results[i].Plaintext? && results[j].Plaintext? ::
      NumberOf(envelopes[i]) != NumberOf(envelopes[j])
  }

  /** Each text is delivered at most once by its own envelope, and nothing else by it. */
  ghost predicate DeliversEachTextOnce(arrivals: seq<Arrival>, texts: seq<Bytes>, results: seq<DecryptResult>)
    requires |results| == |arrivals| && FromTexts(arrivals, texts)
  {
    (forall i | 0 <= i < |arrivals| && arrivals[i].Genuine? && results[i].Plaintext? ::
       results[i].text == texts[arrivals[i].index]) &&
    forall i, j | 0 <= i < j < |arrivals| && arrivals[i].Genuine? && arrivals[j].Genuine? &&
                  arrivals[i].index == arrivals[j].index ::
      !(results[i].Plaintext? && results[j].Plaintext?)
  }

  /** Two ends of one session: one encrypts texts, the other decrypts whatever arrives, genuine
      envelopes in any order, repeated or lost, with any other bytes in between. */
  method Exchange(cipher: Cipher, session: Session, server: bool, texts: seq<Bytes>, arrivals: seq<Arrival>)
    returns (results: seq<DecryptResult>)
    requires FromTexts(arrivals, texts) && |texts| < TWO_64
    ensures |results| == |arrivals|
    ensures var envelopes := Traffic(cipher, SendDirection(session, server), texts, arrivals);
      && (forall i | 0 <= i < |results| :: results[i] == Returned(cipher, SendDirection(session, server), envelopes, i))
      && (Correct(cipher) ==> DeliversWhatIsFresh(arrivals, texts, envelopes, results))
      && (Correct(cipher) ==> DeliversEachTextOnce(arrivals, texts, results))
      && (Correct(cipher) && (forall a | a in arrivals :: !Opens(cipher, SendDirection(session, server), a)) ==>
            ReturnsOnlySentOnce(texts, envelopes, results))
      && (Unforged(cipher, SendDirection(session, server), texts, envelopes) && Correct(cipher) ==>
            ReturnsOnlySentOnce(texts, envelopes, results))
  {
    var sender := new Channel(cipher, session, server);
    var receiver := new Channel(cipher, session, !server);
    var sealed := SendAll(sender, texts);
    var arriving: seq<Bytes> := [];
    for i := 0 to |arrivals|
      invariant |arriving| == i
      invariant forall j | 0 <= j < i ::
                  arriving[j] == Arriving(cipher, SendDirection(session, server), texts, arrivals[j])
    {
      match arrivals[i] {
        case Genuine(k) => arriving := arriving + [sealed[k]];
        case Foreign(bytes) => arriving := arriving + [bytes];
      }
    }
    ghost var wire := SendDirection(session, server);
    EndsMatch(session, server);
    assert arriving == Traffic(cipher, wire, texts, arrivals);
    results := ReceiveAll(receiver, arriving);
    if Correct(cipher) {
      GenuineTrafficIsDelivered(cipher, wire, texts, arrivals, arriving, results);
      GenuineTextsComeOutOnce(cipher, wire, texts, arrivals, arriving, results);
      if forall a | a in arrivals :: !Opens(cipher, wire, a) {
        GenuineTrafficIsUnforged(cipher, wire, texts, arrivals);
      }
      if Unforged(cipher, wire, texts, arriving) {
        EveryTextIsReturnedAtMostOnce(cipher, wire, texts, arriving, results);
      }
    }
  }

  lemma GenuineArrival(cipher: Cipher, wire: Direction, texts: seq<Bytes>, arrival: Arrival, envelopes: seq<Bytes>,
                       i: nat)
    requires Correct(cipher) && arrival.Genuine? && arrival.index < |texts| < TWO_64
    requires i < |envelopes| && envelopes[i] == Arriving(cipher, wire, texts, arrival)
    ensures Returned(cipher, wire, envelopes, i) == if Verdict(Numbers(envelopes), i)
                                                      then Plaintext(texts[arrival.index]) else Replayed
  {
    assert (arrival.index + 1) % TWO_64 == arrival.index + 1;
    GenuineReturn(cipher, wire, envelopes, i, arrival.index + 1, texts[arrival.index]);
  }

  lemma GenuineTrafficIsDelivered(cipher: Cipher, wire: Direction, texts: seq<Bytes>, arrivals: seq<Arrival>,
                                  envelopes: seq<Bytes>, results: seq<DecryptResult>)
    requires Correct(cipher) && FromTexts(arrivals, texts) && |texts| < TWO_64 &&
             envelopes == Traffic(cipher, wire, texts, arrivals)
    requires |results| == |arrivals| &&
             forall i | 0 <= i < |results| :: results[i] == Returned(cipher, wire, envelopes, i)
    ensures DeliversWhatIsFresh(arrivals, texts, envelopes, results)
  {
    forall i | 0 <= i < |arrivals| && arrivals[i].Genuine?
      ensures results[i] == if Verdict(Numbers(envelopes), i) then Plaintext(texts[arrivals[i].index]) else Replayed
    {
      GenuineArrival(cipher, wire, texts, arrivals[i], envelopes, i);
    }
  }

  lemma EveryTextIsReturnedAtMostOnce(cipher: Cipher, wire: Direction, texts: seq<Bytes>, envelopes: seq<Bytes>,
                                      results: seq<DecryptResult>)
    requires Correct(cipher) && Unforged(cipher, wire, texts, envelopes) && |results| == |envelopes|
    requires forall i | 0 <= i < |results| :: results[i] == Returned(cipher, wire, envelopes, i)
    ensures ReturnsOnlySentOnce(texts, envelopes, results)
  {
    forall i, j | 0 <= i < j < |results| && results[i].Plaintext? && results[j].Plaintext?
      ensures NumberOf(envelopes[i]) != NumberOf(envelopes[j])
    {
      if NumberOf(envelopes[i]) == NumberOf(envelopes[j]) {
        NeverTwice(Numbers(envelopes), i, j);
      }
    }
    forall i | 0 <= i < |results| && results[i].Plaintext?
      ensures 1 <= NumberOf(envelopes[i]) <= |texts| && results[i].text == texts[NumberOf(envelopes[i]) - 1]
    {
      var s := SequenceOf(envelopes[i]);
      assert cipher.open(wire.key, SequenceNonce(wire.base, s), envelopes[i][HEADER_SIZE..]) == Some(results[i].text);
    }
  }

  /** The assumption holds of any traffic in which no foreign bytes open, and so of genuine traffic. */
  lemma GenuineTrafficIsUnforged(cipher: Cipher, wire: Direction, texts: seq<Bytes>, arrivals: seq<Arrival>)
    requires Correct(cipher) && FromTexts(arrivals, texts) && |texts| < TWO_64
    requires forall a | a in arrivals :: !Opens(cipher, wire, a)
    ensures Unforged(cipher, wire, texts, Traffic(cipher, wire, texts, arrivals))
  {
    var envelopes := Traffic(cipher, wire, texts, arrivals);
    forall i | 0 <= i < |envelopes| && WellFormed(envelopes[i]) &&
               OpenEnvelope(cipher, wire.key, wire.base, envelopes[i]).Some?
      ensures var s := SequenceOf(envelopes[i]);
              1 <= s <= |texts| &&
              envelopes[i][HEADER_SIZE..] == cipher.seal(wire.key, SequenceNonce(wire.base, s), texts[s - 1])
    {
      assert arrivals[i] in arrivals && !Opens(cipher, wire, arrivals[i]);
      var k := arrivals[i].index;
      assert (k + 1) % TWO_64 == k + 1;
      EnvelopeRoundTrip(cipher, wire.key, wire.base, k + 1, texts[k]);
      EnvelopeBody(cipher, wire, k + 1, texts[k]);
    }
  }

  lemma EnvelopeBody(cipher: Cipher, wire: Direction, s: uint64, text: Bytes)
    ensures Envelope(cipher, wire.key, wire.base, s, text)[HEADER_SIZE..] ==
            cipher.seal(wire.key, SequenceNonce(wire.base, s), text)
  {
  }

  /** Whatever else arrives, forged envelopes included, the envelope of a text delivers it once. */
  lemma GenuineTextsComeOutOnce(cipher: Cipher, wire: Direction, texts: seq<Bytes>, arrivals: seq<Arrival>,
                                envelopes: seq<Bytes>, results: seq<DecryptResult>)
    requires Correct(cipher) && FromTexts(arrivals, texts) && |texts| < TWO_64 &&
             envelopes == Traffic(cipher, wire, texts, arrivals)
    requires |results| == |arrivals| && DeliversWhatIsFresh(arrivals, texts, envelopes, results)
    ensures DeliversEachTextOnce(arrivals, texts, results)
  {
    forall i, j | 0 <= i < j < |arrivals| && arrivals[i].Genuine? && arrivals[j].Genuine? &&
                  arrivals[i].index == arrivals[j].index
      ensures !(results[i].Plaintext? && results[j].Plaintext?)
    {
      var k := arrivals[i].index;
      assert (k + 1) % TWO_64 == k + 1;
      GenuineReturn(cipher, wire, envelopes, i, k + 1, texts[k]);
      GenuineReturn(cipher, wire, envelopes, j, k + 1, texts[k]);
      if Verdict(Numbers(envelopes), i) && Verdict(Numbers(envelopes), j) {
        NeverTwice(Numbers(envelopes), i, j);
      }
    }
  }

  // ---------- the assumptions hold together ----------

  const PLAIN_TAG: Bytes := seq(TAG_SIZE, _ => 7)

  /** A cipher that only tags: it shows that the assumptions do not exclude each other. */
  const PLAIN := Cipher((key: Bytes, nonce: Nonce, text: Bytes) => text + PLAIN_TAG,
                        (key: Bytes, nonce: Nonce, body: Bytes) =>
                          if |body| >= TAG_SIZE && body[|body| - TAG_SIZE..] == PLAIN_TAG
                          then Some(body[..|body| - TAG_SIZE]) else None)

  /** A text, then foreign bytes that are well-formed but do not open. */
  lemma AssumptionsCanBeMet(wire: Direction, text: Bytes)
    ensures var forged := [ENVELOPE_VERSION] + BigEndian(8, 1) + seq(TAG_SIZE, _ => 0);
      && Correct(PLAIN) && WellFormed(forged) && !Opens(PLAIN, wire, Foreign(forged))
      && Unforged(PLAIN, wire, [text], Traffic(PLAIN, wire, [text], [Genuine(0), Foreign(forged)]))
  {
    var body: Bytes := seq(TAG_SIZE, _ => 0);
    var forged := [ENVELOPE_VERSION] + BigEndian(8, 1) + body;
    var arrivals := [Genuine(0), Foreign(forged)];
    PlainIsCorrect();
    ForgedClaimsItsNumber(PLAIN, wire, body);
    assert body[|body| - TAG_SIZE..][0] != PLAIN_TAG[0];
    assert !Opens(PLAIN, wire, Foreign(forged));
    GenuineTrafficIsUnforged(PLAIN, wire, [text], arrivals);
  }

  lemma PlainIsCorrect()
    ensures Correct(PLAIN)
  {
    forall key: Bytes, nonce: Nonce, text: Bytes
      ensures |PLAIN.seal(key, nonce, text)| == |text| + TAG_SIZE
      ensures PLAIN.open(key, nonce, PLAIN.seal(key, nonce, text)) == Some(text)
    {
      var body := text + PLAIN_TAG;
      assert body[|body| - TAG_SIZE..] == PLAIN_TAG && body[..|body| - TAG_SIZE] == text;
    }
  }

  /** In any traffic, the first arrival of a text's envelope is delivered unless something claimed
      its number, or one at least 64 above it, before. */
  lemma FirstArrivalIsDelivered(cipher: Cipher, wire: Direction, envelopes: seq<Bytes>, i: nat, s: uint64, text: Bytes)
    requires Correct(cipher) && i < |envelopes| && s != 0 &&
             envelopes[i] == Envelope(cipher, wire.key, wire.base, s, text)
    requires forall j | 0 <= j < i :: NumberOf(envelopes[j]) != s && NumberOf(envelopes[j]) as int < s as int + 64
    ensures Returned(cipher, wire, envelopes, i) == Plaintext(text)
  {
    GenuineReturn(cipher, wire, envelopes, i, s, text);
    FirstInWindowSucceeds(Numbers(envelopes), i);
  }

  /** Bytes that claim a text's number and do not open use the number up: the genuine envelope
      is then taken for a replay. */
  lemma ForgedEnvelopeUsesUpItsNumber(cipher: Cipher, wire: Direction, text: Bytes, body: Bytes)
    requires Correct(cipher) && |body| >= TAG_SIZE && cipher.open(wire.key, SequenceNonce(wire.base, 1), body) == None
    ensures var arrivals := [Foreign([ENVELOPE_VERSION] + BigEndian(8, 1) + body), Genuine(0)];
      var envelopes := Traffic(cipher, wire, [text], arrivals);
      && Returned(cipher, wire, envelopes, 0) == Undecryptable
      && Returned(cipher, wire, envelopes, 1) == Replayed
      && Returned(cipher, wire, envelopes[1..], 0) == Plaintext(text)
  {
    var forged := [ENVELOPE_VERSION] + BigEndian(8, 1) + body;
    var envelopes := Traffic(cipher, wire, [text], [Foreign(forged), Genuine(0)]);
    ForgedClaimsItsNumber(cipher, wire, body);
    GenuineReturn(cipher, wire, envelopes, 1, 1, text);
    GenuineReturn(cipher, wire, envelopes[1..], 0, 1, text);
    assert Numbers(envelopes) == [1, 1] && Numbers(envelopes[1..]) == [1];
    FirstInWindowSucceeds([1, 1], 0);
    NeverTwice([1, 1], 0, 1);
    FirstInWindowSucceeds([1], 0);
  }

  lemma ForgedClaimsItsNumber(cipher: Cipher, wire: Direction, body: Bytes)
    requires |body| >= TAG_SIZE
    ensures var forged := [ENVELOPE_VERSION] + BigEndian(8, 1) + body;
      && WellFormed(forged) && SequenceOf(forged) == 1
      && OpenEnvelope(cipher, wire.key, wire.base, forged) == cipher.open(wire.key, SequenceNonce(wire.base, 1), body)
  {
    var forged := [ENVELOPE_VERSION] + BigEndian(8, 1) + body;
    PowOf64();
    BigEndianRoundTrip(8, 1);
    assert forged[1..HEADER_SIZE] == BigEndian(8, 1) && forged[HEADER_SIZE..] == body;
  }

  /** No two of the first 2^64 - 1 texts of a direction are sealed under the same nonce. */
  lemma NoncesNeverRepeat(base: Nonce, i: nat, j: nat)
    requires 1 <= i < j < TWO_64
    ensures SequenceNonce(base, i) != SequenceNonce(base, j)
  {
    if SequenceNonce(base, i) == SequenceNonce(base, j) {
      NonceIsInjective(base, i, j);
    }
  }
}

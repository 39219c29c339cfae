/**
 What the source of an HDCP handshake knows and sends, told by the messages it received.
 */
module HdcpRuns {
  import opened Wrappers
  import opened HdcpFraming
  import opened HdcpHandshakes

  // ---------- What is stored ----------

  /** A message of this kind, long enough to be read. */
  predicate IsKind(message: Bytes, id: bv8, length: nat) {
    |message| >= length > 0 && message[0] == id
  }

  /** The message carries the value that authenticates the receiver, for the nonces and the version stored now. */
  predicate ShowsHPrime(c: Crypto, m: Material, message: Bytes) {
    IsKind(message, 0x07, 33) && message[1..33] == HPrime(c, m.rtx, m.km, m.rrx, m.version)
  }

  ghost predicate EverShown(c: Crypto, m: Material, inputs: seq<Input>) {
    exists k :: 0 <= k < |inputs| && ShowsHPrime(c, Run(c, m, inputs[..k]).0, inputs[k].message)
  }

  /** The eight bytes behind the identifier of the latest message that carries the receiver's nonce. */
  function LatestNonce(rrx: Option<Bytes8>, inputs: seq<Input>): Option<Bytes8>
    decreases |inputs|
  {
    if inputs == [] then rrx
    else
      var last := inputs[|inputs| - 1].message;
      if IsKind(last, 0x06, 9) then Some(last[1..9]) else LatestNonce(rrx, inputs[..|inputs| - 1])
  }

  /** The fourth byte of the latest message that tells the receiver's version. */
  function LatestVersion(version: Option<bv8>, inputs: seq<Input>): Option<bv8>
    decreases |inputs|
  {
    if inputs == [] then version
    else
      var last := inputs[|inputs| - 1].message;
      if IsKind(last, 0x14, 6) then Some(last[3]) else LatestVersion(version, inputs[..|inputs| - 1])
  }

  lemma AdvanceStores(c: Crypto, m: Material, message: Bytes, choices: Choices)
    ensures var next := Advance(c, m, message, choices).0;
            && (next.rtx, next.km) == (m.rtx, m.km)
            && (next.hPrimeVerified <==> m.hPrimeVerified || ShowsHPrime(c, m, message))
            && (next.pairingInfoReceived <==> m.pairingInfoReceived || IsKind(message, 0x08, 17))
            && next.rrx == (if IsKind(message, 0x06, 9) then Some(message[1..9]) else m.rrx)
            && next.version == (if IsKind(message, 0x14, 6) then Some(message[3]) else m.version)
  {
    LocalityStores(c, m, message, choices);
    hide HPrime, CheckLocality, LcInit;
  }

  lemma LocalityStores(c: Crypto, m: Material, message: Bytes, choices: Choices)
    ensures var next := CheckLocality(c, m, message, choices).0;
            (next.rtx, next.km, next.hPrimeVerified, next.pairingInfoReceived, next.rrx, next.version)
            == (m.rtx, m.km, m.hPrimeVerified, m.pairingInfoReceived, m.rrx, m.version)
  {
    hide LPrimeMatches, Mask, XorAt, SkeSendEks, LcInit;
  }

  lemma {:induction false} RunLast(c: Crypto, m: Material, inputs: seq<Input>, last: Input)
    ensures Run(c, m, inputs + [last]).0 == Advance(c, Run(c, m, inputs).0, last.message, last.choices).0
  {
    RunAppend(c, m, inputs, [last]);
    hide Advance;
    assert [last][1..] == [];
  }

  /**
   Main result: over every run, the receiver counts as authenticated exactly when it did before or some message carried
   the value derived from the nonces and the version stored at that step; the pairing information was received exactly when
   such a message came; and the nonce and the version stored are those of the latest messages that tell them.
   */
  lemma {:induction false} StoredIsReceived(c: Crypto, m: Material, inputs: seq<Input>)
    ensures var last := Run(c, m, inputs).0;
            && (last.hPrimeVerified <==> m.hPrimeVerified || EverShown(c, m, inputs))
            && (last.pairingInfoReceived <==> m.pairingInfoReceived || exists k :: 0 <= k < |inputs| && IsKind(inputs[k].message, 0x08, 17))
            && last.rrx == LatestNonce(m.rrx, inputs)
            && last.version == LatestVersion(m.version, inputs)
            && (last.rtx, last.km) == (m.rtx, m.km)
    decreases |inputs|
  {
    if inputs != [] {
      var front, x := inputs[..|inputs| - 1], inputs[|inputs| - 1];
      assert inputs == front + [x];
      StoredIsReceived(c, m, front);
      RunLast(c, m, front, x);
      AdvanceStores(c, Run(c, m, front).0, x.message, x.choices);
      hide Run, Advance, ShowsHPrime, IsKind;
      ShownGrows(c, m, front, x);
      PairedGrows(front, x);
    }
  }

  lemma ShownGrows(c: Crypto, m: Material, front: seq<Input>, x: Input)
    ensures EverShown(c, m, front + [x]) <==> EverShown(c, m, front) || ShowsHPrime(c, Run(c, m, front).0, x.message)
  {
    hide Run, ShowsHPrime;
    var all := front + [x];
    assert all[..|front|] == front && all[|front|] == x;
    if EverShown(c, m, all) {
      var k :| 0 <= k < |all| && ShowsHPrime(c, Run(c, m, all[..k]).0, all[k].message);
      if k < |front| {
        assert all[..k] == front[..k] && all[k] == front[k];
      }
    }
    if EverShown(c, m, front) {
      var k :| 0 <= k < |front| && ShowsHPrime(c, Run(c, m, front[..k]).0, front[k].message);
      assert all[..k] == front[..k] && all[k] == front[k];
    }
  }

  lemma PairedGrows(front: seq<Input>, x: Input)
    ensures var all := front + [x];
            (exists k :: 0 <= k < |all| && IsKind(all[k].message, 0x08, 17))
            <==> (exists k :: 0 <= k < |front| && IsKind(front[k].message, 0x08, 17)) || IsKind(x.message, 0x08, 17)
  {
    hide IsKind;
    var all := front + [x];
    assert all[|front|] == x && forall k :: 0 <= k < |front| ==> all[k] == front[k];
  }

  // ---------- What is sent ----------

  /** The locality check is started: the receiver has just been found authentic and paired, or asks for it itself. */
  predicate StartsCheck(c: Crypto, m: Material, message: Bytes) {
    && !m.sentLcInit
    && (|| (ShowsHPrime(c, m, message) && m.pairingInfoReceived)
        || (IsKind(message, 0x08, 17) && m.hPrimeVerified)
        || (IsKind(message, 0x0a, 33) && m.rrx.Some? && !m.sentSke))
  }

  /** The nonce that the locality check has been started with, when that was delivered. */
  function CheckNonce(m: Material, choices: Choices): Option<Bytes8> {
    if m.sentLcInit then m.rn else if choices.lcInitDelivered then Some(choices.rn) else None
  }

  /** The message answers the locality check. */
  predicate ShowsLPrime(c: Crypto, m: Material, message: Bytes, choices: Choices) {
    && IsKind(message, 0x0a, 33) && m.rrx.Some? && CheckNonce(m, choices).Some?
    && message[1..33] == LPrime(c, m.rtx, m.km, CheckNonce(m, choices).value, m.rrx.value, m.version)
  }

  function CheckWrite(choices: Choices): Write {
    Write([0x09] + choices.rn, choices.lcInitDelivered)
  }

  function KeyWrite(c: Crypto, m: Material, choices: Choices): Write
    requires m.rrx.Some? && CheckNonce(m, choices).Some?
  {
    Write([0x0b] + XorAt(choices.ks, 0, Mask(c, m.rtx, m.km, CheckNonce(m, choices).value, m.rrx.value, m.version)) + choices.riv,
          choices.skeDelivered)
  }

  /**
   Main result, step by step: the locality check is attempted exactly when none was delivered before and this message
   completes authentication and pairing, or is an L_prime for a stored nonce; the key is sent exactly when the L_prime
   is the value derived with the nonce of the check and no key was delivered before; nothing else is ever written.
   */
  lemma WritesExactly(c: Crypto, m: Material, message: Bytes, choices: Choices)
    requires Consistent(m)
    ensures Advance(c, m, message, choices).1
         == (if StartsCheck(c, m, message) then [CheckWrite(choices)] else [])
            + (if !m.sentSke && ShowsLPrime(c, m, message, choices) then [KeyWrite(c, m, choices)] else [])
  {
    hide HPrime, LPrime, Mask, XorAt;
    if IsKind(message, 0x0a, 33) && !m.sentSke {
      LocalityWrites(c, m, message, choices);
    } else if message != [] {
      OtherWrites(c, m, message, choices);
    }
  }

  lemma OtherWrites(c: Crypto, m: Material, message: Bytes, choices: Choices)
    requires message != [] && !(IsKind(message, 0x0a, 33) && !m.sentSke)
    ensures Advance(c, m, message, choices).1 == if StartsCheck(c, m, message) then [CheckWrite(choices)] else []
  {
    hide HPrime, LPrimeMatches, Mask, XorAt, SkeSendEks;
  }

  lemma LocalityWrites(c: Crypto, m: Material, message: Bytes, choices: Choices)
    requires Consistent(m) && IsKind(message, 0x0a, 33) && !m.sentSke
    ensures Advance(c, m, message, choices).1
         == (if StartsCheck(c, m, message) then [CheckWrite(choices)] else [])
            + (if ShowsLPrime(c, m, message, choices) then [KeyWrite(c, m, choices)] else [])
  {
    hide HPrime, LPrime, Mask, XorAt;
    assert Advance(c, m, message, choices) == CheckLocality(c, m, message, choices);
  }

  // ---------- Where messages are cut ----------

  /** A message cut behind its known length is handled as it was, and a shorter one is ignored: the lengths are the fields read. */
  lemma LengthsAreRead(c: Crypto, m: Material, message: Bytes, choices: Choices)
    requires message != [] && KnownLength(message[0]).Some?
    ensures var n := KnownLength(message[0]).value;
            Advance(c, m, message, choices) == if |message| < n then (m, []) else Advance(c, m, message[..n], choices)
  {
    hide HPrime, LPrime, Mask, XorAt, SkeSendEks, LcInit;
    var n := KnownLength(message[0]).value;
    if |message| >= n {
      var cut := message[..n];
      assert cut[0] == message[0] && (n >= 6 ==> cut[3] == message[3]);
      assert n >= 9 ==> cut[1..9] == message[1..9];
      assert n >= 33 ==> cut[1..33] == message[1..33];
    }
  }

  /** A receiver's certificate: the identifier, whether it repeats, its number, modulus, exponent, reserved bytes and signature. */
  lemma CertificateLength()
    ensures KnownLength(0x03) == Some(1 + 1 + 5 + 128 + 3 + 2 + 384)
  {
  }

  // ---------- An honest receiver ----------

  /** What an honest receiver computes with: its own nonce and version, and the secret and the nonces it was sent. */
  datatype Receiver = Receiver(rtx: Bytes8, km: Bytes16, rrx: Bytes8, version: bv8) {
    /** The block for a counter: the source's nonce, from HDCP 2.2 on seven bytes of ours, and the counter. */
    function Block(key: Bytes16, c: Crypto, counter: bv8): Bytes16 {
      c.block(key, rtx + (if version < 2 then [0, 0, 0, 0, 0, 0, 0] else rrx[..7]) + [counter])
    }

    function SharedKey(c: Crypto): Bytes32 {
      Block(km, c, 0) + Block(km, c, 1)
    }

    /** H_prime authenticates the source's nonce. */
    function AuthenticationReply(c: Crypto): Bytes {
      [0x07] + c.hmac(SharedKey(c), rtx)
    }

    /** L_prime authenticates the nonce of the locality check, its key being changed by our nonce at the end. */
    function LocalityReply(c: Crypto, rn: Bytes8): Bytes {
      var key := SharedKey(c);
      [0x0a] + c.hmac(key[..24] + Xor8(key[24..], rrx), rn)
    }

    /** The mask of the session key. */
    function KeyMask(c: Crypto, rn: Bytes8): Bytes16 {
      var block := Block(km[..8] + Xor8(km[8..], rn), c, 2);
      block[..8] + Xor8(block[8..], rrx)
    }
  }

  function Xor8(a: Bytes8, b: Bytes8): Bytes8 {
    seq(8, i requires 0 <= i < 8 => a[i] ^ b[i])
  }

  lemma XorTail(a: Bytes, b: Bytes8)
    requires |a| >= 8
    ensures XorAt(a, |a| - 8, b) == a[..|a| - 8] + Xor8(a[|a| - 8..], b)
  {
    var n := |a| - 8;
    var tail: Bytes8 := a[n..];
    var mixed := Xor8(tail, b);
    forall i | 0 <= i < |a| ensures XorAt(a, n, b)[i] == (a[..n] + mixed)[i] {
      if i >= n {
        assert tail[i - n] == a[i];
        XorByte(tail, b, i - n);
      }
    }
  }

  lemma XorByte(a: Bytes8, b: Bytes8, i: nat)
    requires i < 8
    ensures Xor8(a, b)[i] == a[i] ^ b[i]
  {
  }

  lemma BlocksAgree(r: Receiver, c: Crypto, key: Bytes16, counter: bv8)
    ensures c.block(key, Iv(r.rtx, Some(r.rrx), Some(r.version), counter)) == r.Block(key, c, counter)
  {
    assert seq(7, _ => 0 as bv8) == [0, 0, 0, 0, 0, 0, 0];
  }

  lemma SharedKeysAgree(r: Receiver, c: Crypto)
    ensures Kd(c, r.rtx, r.km, Some(r.rrx), Some(r.version)) == r.SharedKey(c)
  {
    BlocksAgree(r, c, r.km, 0);
    BlocksAgree(r, c, r.km, 1);
    hide Iv;
  }

  /** The source expects what an honest receiver computes. */
  lemma ExpectationsAgree(r: Receiver, c: Crypto, rn: Bytes8)
    ensures [0x07] + HPrime(c, r.rtx, r.km, Some(r.rrx), Some(r.version)) == r.AuthenticationReply(c)
    ensures [0x0a] + LPrime(c, r.rtx, r.km, rn, r.rrx, Some(r.version)) == r.LocalityReply(c, rn)
    ensures Mask(c, r.rtx, r.km, rn, r.rrx, Some(r.version)) == r.KeyMask(c, rn)
  {
    SharedKeysAgree(r, c);
    hide Kd, Iv, XorAt, Xor8;
    XorTail(r.SharedKey(c), r.rrx);
    XorTail(r.km, rn);
    BlocksAgree(r, c, r.km[..8] + Xor8(r.km[8..], rn), 2);
    XorTail(r.Block(r.km[..8] + Xor8(r.km[8..], rn), c, 2), r.rrx);
  }

  lemma OneRun(c: Crypto, m: Material, x: Input, rest: seq<Input>)
    ensures var (next, writes) := Advance(c, m, x.message, x.choices);
            Run(c, m, [x] + rest) == (Run(c, next, rest).0, writes + Run(c, next, rest).1)
  {
    hide Advance;
    assert ([x] + rest)[1..] == rest;
  }

  /** The first two messages only tell the version and the receiver's nonce. */
  lemma Introduced(c: Crypto, r: Receiver, hello: Input, nonce: Input)
    requires IsKind(hello.message, 0x14, 6) && hello.message[3] == r.version && nonce.message == [0x06] + r.rrx
    ensures var m := Material(r.rtx, r.km, None, None, None, false, false, false, false);
            var told := m.(version := Some(r.version));
            && Advance(c, m, hello.message, hello.choices) == (told, [])
            && Advance(c, told, nonce.message, nonce.choices) == (told.(rrx := Some(r.rrx)), [])
  {
    assert nonce.message[1..9] == r.rrx;
  }

  lemma Authenticated(c: Crypto, r: Receiver, m: Material, x: Input)
    requires (m.rtx, m.km, m.rrx, m.version) == (r.rtx, r.km, Some(r.rrx), Some(r.version))
    requires !m.pairingInfoReceived && x.message == r.AuthenticationReply(c)
    ensures Advance(c, m, x.message, x.choices) == (m.(hPrimeVerified := true), [])
  {
    ExpectationsAgree(r, c, x.choices.rn);
    hide HPrime, LPrime, Mask;
    var h := HPrime(c, r.rtx, r.km, Some(r.rrx), Some(r.version));
    assert ([0x07] + h)[1..33] == h;
  }

  lemma Paired(c: Crypto, m: Material, x: Input)
    requires m.hPrimeVerified && !m.sentLcInit && IsKind(x.message, 0x08, 17) && x.choices.lcInitDelivered
    ensures Advance(c, m, x.message, x.choices)
         == (m.(pairingInfoReceived := true, rn := Some(x.choices.rn), sentLcInit := true), [Write([0x09] + x.choices.rn, true)])
  {
  }

  lemma KeySent(c: Crypto, r: Receiver, m: Material, rn: Bytes8, x: Input)
    requires (m.rtx, m.km, m.rrx, m.version) == (r.rtx, r.km, Some(r.rrx), Some(r.version))
    requires m.sentLcInit && m.rn == Some(rn) && !m.sentSke && x.message == r.LocalityReply(c, rn) && x.choices.skeDelivered
    ensures Advance(c, m, x.message, x.choices)
         == (m.(sentSke := true), [Write([0x0b] + XorAt(x.choices.ks, 0, r.KeyMask(c, rn)) + x.choices.riv, true)])
  {
    ExpectationsAgree(r, c, rn);
    hide HPrime, LPrime, Mask, XorAt;
    var l := LPrime(c, r.rtx, r.km, rn, r.rrx, Some(r.version));
    assert ([0x0a] + l)[1..33] == l;
    assert LPrimeMatches(c, m, x.message);
    var second := ExchangeKey(c, m, x.message, x.choices).1;
    assert [] + second == second && CheckLocality(c, m, x.message, x.choices) == (m.(sentSke := true), second);
  }

  /**
   Main result: with an honest receiver that tells its version and nonce, authenticates itself, sends its pairing
   information and answers the locality check, and when writes go through, exactly the locality check and the session key are
   sent, and the receiver gets the key back with its own mask.
   */
  lemma HonestHandshake(c: Crypto, r: Receiver, hello: Input, nonce: Input, shown: Input, paired: Input, answer: Input)
    requires IsKind(hello.message, 0x14, 6) && hello.message[3] == r.version && nonce.message == [0x06] + r.rrx
    requires shown.message == r.AuthenticationReply(c) && IsKind(paired.message, 0x08, 17)
    requires answer.message == r.LocalityReply(c, paired.choices.rn) && paired.choices.lcInitDelivered && answer.choices.skeDelivered
    ensures var m := Material(r.rtx, r.km, None, None, None, false, false, false, false);
            var (last, writes) := Run(c, m, [hello] + ([nonce] + ([shown] + ([paired] + ([answer] + [])))));
            && last.sentSke && last.rn == Some(paired.choices.rn)
            && |writes| == 2 && writes[0] == Write([0x09] + paired.choices.rn, true)
            && writes[1].delivered && |writes[1].message| == 25 && writes[1].message[0] == 0x0b
            && XorAt(writes[1].message[1..17], 0, r.KeyMask(c, paired.choices.rn)) == answer.choices.ks
            && writes[1].message[17..] == answer.choices.riv
  {
    var rn := paired.choices.rn;
    var m0 := Material(r.rtx, r.km, None, None, None, false, false, false, false);
    var m1 := m0.(version := Some(r.version));
    var m2 := m1.(rrx := Some(r.rrx));
    var m3 := m2.(hPrimeVerified := true);
    var m4 := m3.(pairingInfoReceived := true, rn := Some(rn), sentLcInit := true);
    var m5 := m4.(sentSke := true);
    hide Advance, Receiver.AuthenticationReply, Receiver.LocalityReply, Receiver.KeyMask, XorAt, Run, IsKind;
    Introduced(c, r, hello, nonce);
    Authenticated(c, r, m2, shown);
    Paired(c, m3, paired);
    KeySent(c, r, m4, rn, answer);
    OneRun(c, m0, hello, [nonce] + ([shown] + ([paired] + ([answer] + []))));
    OneRun(c, m1, nonce, [shown] + ([paired] + ([answer] + [])));
    OneRun(c, m2, shown, [paired] + ([answer] + []));
    OneRun(c, m3, paired, [answer] + []);
    OneRun(c, m4, answer, []);
    NothingRun(c, m5);
    Unmasked(answer.choices.ks, r.KeyMask(c, rn), answer.choices.riv);
  }

  lemma NothingRun(c: Crypto, m: Material)
    ensures Run(c, m, []) == (m, [])
  {
  }

  lemma Unmasked(ks: Bytes16, mask: Bytes16, riv: Bytes8)
    ensures var message := [0x0b] + XorAt(ks, 0, mask) + riv;
            && |message| == 25 && message[0] == 0x0b && message[17..] == riv && XorAt(message[1..17], 0, mask) == ks
  {
    var eks: Bytes16 := XorAt(ks, 0, mask);
    assert ([0x0b] + eks + riv)[1..17] == eks;
    hide XorAt;
    XorTwice(ks, 0, mask);
  }
}

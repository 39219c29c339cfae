/**
 The source's side of the HDCP handshake: what a received message does to the stored material, and what is sent.
 AES and HMAC are arbitrary functions; nonces, keys and the success of writes are arbitrary choices.
 */
module HdcpHandshakes {
  import opened Wrappers
  import opened HdcpFraming

  type Bytes7 = s: Bytes | |s| == 7 witness seq(7, _ => 0)
  type Bytes8 = s: Bytes | |s| == 8 witness seq(8, _ => 0)
  type Bytes16 = s: Bytes | |s| == 16 witness seq(16, _ => 0)
  type Bytes32 = s: Bytes | |s| == 32 witness seq(32, _ => 0)

  // ---------- Keys ----------

  /** One block of AES in counter mode, and HMAC with SHA-256. */
  datatype Crypto = Crypto(block: (Bytes16, Bytes16) -> Bytes16, hmac: (Bytes, Bytes) -> Bytes32)

  /** Exclusive or with `mask` from position `from` on. */
  function XorAt(a: Bytes, from: nat, mask: Bytes): (r: Bytes)
    requires from + |mask| <= |a|
    ensures |r| == |a|
  {
    seq(|a|, i requires 0 <= i < |a| => if from <= i < from + |mask| then a[i] ^ mask[i - from] else a[i])
  }

  lemma XorTwice(a: Bytes, from: nat, mask: Bytes)
    requires from + |mask| <= |a|
    ensures XorAt(XorAt(a, from, mask), from, mask) == a
  {
    var once := XorAt(a, from, mask);
    forall i | 0 <= i < |a| ensures XorAt(once, from, mask)[i] == a[i] {
      if from <= i < from + |mask| {
        XorBack(a[i], mask[i - from]);
      }
    }
  }

  lemma XorBack(x: bv8, y: bv8)
    ensures (x ^ y) ^ y == x
  {
  }

  /** Exclusive or in place, byte by byte. */
  method XorInPlace(dst: array<bv8>, from: nat, mask: Bytes)
    requires from + |mask| <= dst.Length
    modifies dst
    ensures dst[..] == XorAt(old(dst[..]), from, mask)
  {
    for i := 0 to |mask|
      invariant forall k :: 0 <= k < dst.Length ==>
                  dst[k] == if from <= k < from + i then old(dst[k]) ^ mask[k - from] else old(dst[k])
    {
      dst[from + i] := dst[from + i] ^ mask[i];
    }
  }

  datatype Material = Material(rtx: Bytes8, km: Bytes16, rn: Option<Bytes8>, rrx: Option<Bytes8>, version: Option<bv8>,
                               hPrimeVerified: bool, pairingInfoReceived: bool, sentLcInit: bool, sentSke: bool)

  /** The counter block: the transmitter's nonce, from HDCP 2.2 on part of the receiver's, and a counter. */
  function Iv(rtx: Bytes8, rrx: Option<Bytes8>, version: Option<bv8>, counter: bv8): Bytes16 {
    var middle: Bytes7 := if version.Some? && version.value >= 2 && rrx.Some? then rrx.value[..7] else seq(7, _ => 0);
    rtx + middle + [counter]
  }

  function Kd(c: Crypto, rtx: Bytes8, km: Bytes16, rrx: Option<Bytes8>, version: Option<bv8>): Bytes32 {
    c.block(km, Iv(rtx, rrx, version, 0)) + c.block(km, Iv(rtx, rrx, version, 1))
  }

  function HPrime(c: Crypto, rtx: Bytes8, km: Bytes16, rrx: Option<Bytes8>, version: Option<bv8>): Bytes32 {
    c.hmac(Kd(c, rtx, km, rrx, version), rtx)
  }

  function LPrime(c: Crypto, rtx: Bytes8, km: Bytes16, rn: Bytes8, rrx: Bytes8, version: Option<bv8>): Bytes32 {
    c.hmac(XorAt(Kd(c, rtx, km, Some(rrx), version), 24, rrx), rn)
  }

  function Kd2(c: Crypto, rtx: Bytes8, km: Bytes16, rn: Bytes8, rrx: Option<Bytes8>, version: Option<bv8>): Bytes16 {
    c.block(XorAt(km, 8, rn), Iv(rtx, rrx, version, 2))
  }

  /** What both sides combine with the session key. */
  function Mask(c: Crypto, rtx: Bytes8, km: Bytes16, rn: Bytes8, rrx: Bytes8, version: Option<bv8>): Bytes16 {
    XorAt(Kd2(c, rtx, km, rn, Some(rrx), version), 8, rrx)
  }

  // ---------- Messages sent ----------

  const LC_INIT: bv8 := 0x09
  const SKE_SEND_EKS: bv8 := 0x0b

  datatype Write = Write(message: Bytes, delivered: bool)

  function LcInit(rn: Bytes8): Bytes {
    [LC_INIT] + rn
  }

  function SkeSendEks(eks: Bytes16, riv: Bytes8): Bytes {
    [SKE_SEND_EKS] + eks + riv
  }

  /** What chance decides in one step: the nonces and keys drawn, and whether writes go through. */
  datatype Choices = Choices(rn: Bytes8, lcInitDelivered: bool, ks: Bytes16, riv: Bytes8, skeDelivered: bool)

  /** The key exchange message, built by filling the mask and the encrypted key. */
  method EncryptSessionKey(c: Crypto, rtx: Bytes8, km: Bytes16, rn: Bytes8, rrx: Bytes8, version: Option<bv8>, ks: Bytes16, riv: Bytes8)
    returns (message: Bytes)
    ensures message == SkeSendEks(XorAt(ks, 0, Mask(c, rtx, km, rn, rrx, version)), riv)
  {
    var kd2 := Kd2(c, rtx, km, rn, Some(rrx), version);
    var mask := new bv8[16](i requires 0 <= i < 16 => kd2[i]);
    assert mask[..] == kd2;
    XorInPlace(mask, 8, rrx);
    var eks := new bv8[16](i requires 0 <= i < 16 => ks[i]);
    assert eks[..] == ks;
    XorInPlace(eks, 0, mask[..]);
    message := [SKE_SEND_EKS] + eks[..] + riv;
  }

  /** The receiver, who derives the same mask, gets the session key back from what was sent. */
  lemma ReceiverRecoversKey(c: Crypto, rtx: Bytes8, km: Bytes16, rn: Bytes8, rrx: Bytes8, version: Option<bv8>, ks: Bytes16, riv: Bytes8)
    ensures var message := SkeSendEks(XorAt(ks, 0, Mask(c, rtx, km, rn, rrx, version)), riv);
            && |message| == 25 && message[0] == SKE_SEND_EKS && message[17..] == riv
            && XorAt(message[1..17], 0, Mask(c, rtx, km, rn, rrx, version)) == ks
  {
    var mask := Mask(c, rtx, km, rn, rrx, version);
    var eks: Bytes16 := XorAt(ks, 0, mask);
    assert SkeSendEks(eks, riv)[1..17] == eks;
    hide Mask, XorAt;
    XorTwice(ks, 0, mask);
  }

  // ---------- One received message ----------

  function SendLcInit(m: Material, choices: Choices): (Material, seq<Write>) {
    var write := Write(LcInit(choices.rn), choices.lcInitDelivered);
    if choices.lcInitDelivered then (m.(rn := Some(choices.rn), sentLcInit := true), [write]) else (m, [write])
  }

  function MaybeSendLcInit(m: Material, choices: Choices): (Material, seq<Write>) {
    if m.hPrimeVerified && m.pairingInfoReceived && !m.sentLcInit then SendLcInit(m, choices) else (m, [])
  }

  predicate LPrimeMatches(c: Crypto, m: Material, message: Bytes) {
    && |message| >= 33 && m.rn.Some? && m.rrx.Some?
    && message[1..33] == LPrime(c, m.rtx, m.km, m.rn.value, m.rrx.value, m.version)
  }

  function ExchangeKey(c: Crypto, m: Material, message: Bytes, choices: Choices): (Material, seq<Write>) {
    if !LPrimeMatches(c, m, message) then (m, [])
    else
      var eks := XorAt(choices.ks, 0, Mask(c, m.rtx, m.km, m.rn.value, m.rrx.value, m.version));
      (m.(sentSke := choices.skeDelivered), [Write(SkeSendEks(eks, choices.riv), choices.skeDelivered)])
  }

  function CheckLocality(c: Crypto, m: Material, message: Bytes, choices: Choices): (Material, seq<Write>) {
    if m.rrx.None? then (m, [])
    else
      var (started, first) := if m.sentLcInit then (m, []) else SendLcInit(m, choices);
      if !started.sentLcInit then (started, first)
      else var (done, second) := ExchangeKey(c, started, message, choices); (done, first + second)
  }

  function Advance(c: Crypto, m: Material, message: Bytes, choices: Choices): (Material, seq<Write>) {
    if message == [] then (m, [])
    else if message[0] == 0x14 && |message| >= 6 then (m.(version := Some(message[3])), [])
    else if message[0] == 0x06 && |message| >= 9 then (m.(rrx := Some(message[1..9])), [])
    else if message[0] == 0x07 && |message| >= 33 then
      if message[1..33] == HPrime(c, m.rtx, m.km, m.rrx, m.version) then MaybeSendLcInit(m.(hPrimeVerified := true), choices)
      else (m, [])
    else if message[0] == 0x08 && |message| >= 17 then MaybeSendLcInit(m.(pairingInfoReceived := true), choices)
    else if message[0] == 0x0a && |message| >= 33 && !m.sentSke then CheckLocality(c, m, message, choices)
    else (m, [])
  }

  class HdcpSession {
    const rtx: Bytes8
    const km: Bytes16
    var rn: Option<Bytes8>
    var rrx: Option<Bytes8>
    var version: Option<bv8>
    var hPrimeVerified: bool
    var pairingInfoReceived: bool
    var sentLcInit: bool
    var sentSke: bool

    function Value(): Material
      reads this
    {
      Material(rtx, km, rn, rrx, version, hPrimeVerified, pairingInfoReceived, sentLcInit, sentSke)
    }

    constructor (rtx: Bytes8, km: Bytes16)
      ensures Value() == Material(rtx, km, None, None, None, false, false, false, false)
    {
      this.rtx, this.km, rn, rrx, version := rtx, km, None, None, None;
      hPrimeVerified, pairingInfoReceived, sentLcInit, sentSke := false, false, false, false;
    }

    method StartLocalityCheck(choices: Choices) returns (writes: seq<Write>)
      modifies this
      ensures (Value(), writes) == SendLcInit(old(Value()), choices)
    {
      writes := [Write(LcInit(choices.rn), choices.lcInitDelivered)];
      if choices.lcInitDelivered {
        rn, sentLcInit := Some(choices.rn), true;
      }
    }

    method MaybeStartLocalityCheck(choices: Choices) returns (writes: seq<Write>)
      modifies this
      ensures (Value(), writes) == MaybeSendLcInit(old(Value()), choices)
    {
      writes := [];
      if hPrimeVerified && pairingInfoReceived && !sentLcInit {
        writes := StartLocalityCheck(choices);
      }
    }

    /** Handles one received message. */
    method Handle(c: Crypto, message: Bytes, choices: Choices) returns (writes: seq<Write>)
      modifies this
      ensures (Value(), writes) == Advance(c, old(Value()), message, choices)
    {
      hide HPrime, LPrime, Mask, XorAt, LcInit, SkeSendEks;
      writes := [];
      if message == [] {
        return;
      }
      var id, n := message[0], |message|;
      if id == 0x14 && n >= 6 {
        version := Some(message[3]);
      } else if id == 0x06 && n >= 9 {
        rrx := Some(message[1..9]);
      } else if id == 0x07 && n >= 33 {
        if message[1..33] == HPrime(c, rtx, km, rrx, version) {
          hPrimeVerified := true;
          writes := MaybeStartLocalityCheck(choices);
        }
      } else if id == 0x08 && n >= 17 {
        pairingInfoReceived := true;
        writes := MaybeStartLocalityCheck(choices);
      } else if id == 0x0a && n >= 33 && !sentSke {
        if rrx.None? {
          return;
        }
        if !sentLcInit {
          writes := StartLocalityCheck(choices);
          if !sentLcInit {
            return;
          }
        }
        if rn.None? {
          assert writes + [] == writes;
          return;
        }
        if message[1..33] == LPrime(c, rtx, km, rn.value, rrx.value, version) {
          var exchange := EncryptSessionKey(c, rtx, km, rn.value, rrx.value, version, choices.ks, choices.riv);
          writes := writes + [Write(exchange, choices.skeDelivered)];
          if choices.skeDelivered {
            sentSke := true;
          }
        } else {
          assert writes + [] == writes;
        }
      }
    }
  }

  // ---------- Whole handshakes ----------

  /** How many messages of a kind were sent successfully. */
  function Delivered(writes: seq<Write>, id: bv8): nat {
    if writes == [] then 0
    else (if writes[0].delivered && writes[0].message != [] && writes[0].message[0] == id then 1 else 0) + Delivered(writes[1..], id)
  }

  datatype Input = Input(message: Bytes, choices: Choices)

  /** The material after a sequence of messages, and all that was written. */
  function Run(c: Crypto, m: Material, inputs: seq<Input>): (Material, seq<Write>)
    decreases |inputs|
  {
    if inputs == [] then (m, [])
    else
      var (next, writes) := Advance(c, m, inputs[0].message, inputs[0].choices);
      var (last, more) := Run(c, next, inputs[1..]);
      (last, writes + more)
  }

  /** A nonce is stored exactly when the locality check was started, and keys are exchanged only after that. */
  predicate Consistent(m: Material) {
    (m.rn.Some? <==> m.sentLcInit) && (m.sentSke ==> m.sentLcInit)
  }

  predicate Fresh(m: Material) {
    m.rn.None? && !m.sentLcInit && !m.sentSke
  }

  function Once(b: bool): nat {
    if b then 1 else 0
  }

  lemma OneWrite(w: Write, id: bv8)
    ensures Delivered([w], id) == Once(w.delivered && w.message != [] && w.message[0] == id)
    ensures Delivered([], id) == 0
  {
    assert [w][1..] == [];
  }

  lemma {:induction false} DeliveredAppend(a: seq<Write>, b: seq<Write>, id: bv8)
    ensures Delivered(a + b, id) == Delivered(a, id) + Delivered(b, id)
  {
    if a == [] {
      assert a + b == b;
    } else {
      assert (a + b)[1..] == a[1..] + b;
      DeliveredAppend(a[1..], b, id);
    }
  }

  /** What one step does to the nonce and how often it sends. */
  predicate StepOk(m: Material, next: Material, writes: seq<Write>) {
    && Consistent(next)
    && next.rtx == m.rtx && next.km == m.km
    && (m.sentLcInit ==> next.rn == m.rn && next.sentLcInit)
    && (m.sentSke ==> next.sentSke)
    && Delivered(writes, LC_INIT) == Once(next.sentLcInit && !m.sentLcInit)
    && Delivered(writes, SKE_SEND_EKS) == Once(next.sentSke && !m.sentSke)
    && (forall w :: w in writes && w.delivered && w.message != [] && w.message[0] == LC_INIT ==> next.rn.Some? && w.message == LcInit(next.rn.value))
  }

  lemma LcInitStep(m: Material, choices: Choices)
    requires Consistent(m) && !m.sentLcInit
    ensures StepOk(m, SendLcInit(m, choices).0, SendLcInit(m, choices).1)
  {
    var w := Write(LcInit(choices.rn), choices.lcInitDelivered);
    OneWrite(w, LC_INIT);
    OneWrite(w, SKE_SEND_EKS);
  }

  lemma NothingSent(m: Material, next: Material)
    requires Consistent(m) && next.rtx == m.rtx && next.km == m.km && next.rn == m.rn && next.sentLcInit == m.sentLcInit && next.sentSke == m.sentSke
    ensures StepOk(m, next, [])
  {
  }

  lemma ExchangeStep(c: Crypto, m: Material, message: Bytes, choices: Choices)
    requires Consistent(m) && !m.sentSke
    ensures StepOk(m, ExchangeKey(c, m, message, choices).0, ExchangeKey(c, m, message, choices).1)
  {
    if LPrimeMatches(c, m, message) {
      hide XorAt, Mask, LPrimeMatches;
      var w := ExchangeKey(c, m, message, choices).1[0];
      OneWrite(w, LC_INIT);
      OneWrite(w, SKE_SEND_EKS);
    } else {
      NothingSent(m, m);
    }
  }

  lemma StepsCompose(m: Material, middle: Material, next: Material, first: seq<Write>, second: seq<Write>)
    requires StepOk(m, middle, first) && StepOk(middle, next, second)
    ensures StepOk(m, next, first + second)
  {
    DeliveredAppend(first, second, LC_INIT);
    DeliveredAppend(first, second, SKE_SEND_EKS);
    hide Delivered, LcInit;
    forall w | w in first + second && w.delivered && w.message != [] && w.message[0] == LC_INIT
      ensures next.rn.Some? && w.message == LcInit(next.rn.value)
    {
      assert w in first || w in second;
    }
  }

  lemma LocalityStep(c: Crypto, m: Material, message: Bytes, choices: Choices)
    requires Consistent(m) && !m.sentSke
    ensures StepOk(m, CheckLocality(c, m, message, choices).0, CheckLocality(c, m, message, choices).1)
  {
    NothingSent(m, m);
    if m.rrx.Some? {
      var (started, first) := if m.sentLcInit then (m, []) else SendLcInit(m, choices);
      if !m.sentLcInit {
        LcInitStep(m, choices);
      }
      assert StepOk(m, started, first);
      if started.sentLcInit {
        assert !started.sentSke && Consistent(started);
        hide StepOk, ExchangeKey;
        ExchangeStep(c, started, message, choices);
        var (done, second) := ExchangeKey(c, started, message, choices);
        StepsCompose(m, started, done, first, second);
      }
    }
  }

  lemma MaybeStep(m: Material, base: Material, choices: Choices)
    requires Consistent(m) && base.rtx == m.rtx && base.km == m.km && base.rn == m.rn && base.sentLcInit == m.sentLcInit && base.sentSke == m.sentSke
    ensures StepOk(m, MaybeSendLcInit(base, choices).0, MaybeSendLcInit(base, choices).1)
  {
    hide Delivered;
    NothingSent(m, base);
    if !base.sentLcInit {
      LcInitStep(base, choices);
    }
  }

  lemma AdvanceOk(c: Crypto, m: Material, message: Bytes, choices: Choices)
    requires Consistent(m)
    ensures StepOk(m, Advance(c, m, message, choices).0, Advance(c, m, message, choices).1)
  {
    NothingSent(m, m);
    MaybeStep(m, m.(hPrimeVerified := true), choices);
    MaybeStep(m, m.(pairingInfoReceived := true), choices);
    if !m.sentSke {
      LocalityStep(c, m, message, choices);
    }
    if message != [] {
      if |message| >= 6 {
        NothingSent(m, m.(version := Some(message[3])));
      }
      if |message| >= 9 {
        NothingSent(m, m.(rrx := Some(message[1..9])));
      }
    }
    hide StepOk, CheckLocality, MaybeSendLcInit, HPrime;
  }

  /**
   Main result: in every handshake, whatever arrives and whichever writes fail, a nonce is stored exactly when a
   locality check was started, the check and the key exchange are each sent successfully at most once, and the
   stored nonce is the one that was sent and never changes.
   */
  lemma {:induction false} HandshakeSendsOnce(c: Crypto, m: Material, inputs: seq<Input>)
    requires Consistent(m)
    ensures StepOk(m, Run(c, m, inputs).0, Run(c, m, inputs).1)
    ensures Fresh(m) ==> && Delivered(Run(c, m, inputs).1, LC_INIT) == Once(Run(c, m, inputs).0.rn.Some?) <= 1
                         && Delivered(Run(c, m, inputs).1, SKE_SEND_EKS) == Once(Run(c, m, inputs).0.sentSke) <= 1
    decreases |inputs|
  {
    if inputs == [] {
      NothingSent(m, m);
    } else {
      var (next, writes) := Advance(c, m, inputs[0].message, inputs[0].choices);
      AdvanceOk(c, m, inputs[0].message, inputs[0].choices);
      HandshakeSendsOnce(c, next, inputs[1..]);
      StepsCompose(m, next, Run(c, next, inputs[1..]).0, writes, Run(c, next, inputs[1..]).1);
    }
  }

  lemma {:induction false} RunAppend(c: Crypto, m: Material, a: seq<Input>, b: seq<Input>)
    ensures Run(c, m, a + b).0 == Run(c, Run(c, m, a).0, b).0
    decreases |a|
  {
    if a == [] {
      assert a + b == b;
    } else {
      assert (a + b)[1..] == a[1..] + b;
      hide Advance;
      RunAppend(c, Advance(c, m, a[0].message, a[0].choices).0, a[1..], b);
    }
  }

  /** A stored nonce never changes again. */
  lemma NonceIsStable(c: Crypto, m: Material, a: seq<Input>, b: seq<Input>)
    requires Consistent(m) && Run(c, m, a).0.rn.Some?
    ensures Run(c, m, a + b).0.rn == Run(c, m, a).0.rn
  {
    RunAppend(c, m, a, b);
    HandshakeSendsOnce(c, m, a);
    HandshakeSendsOnce(c, Run(c, m, a).0, b);
  }

  /**
   Main result: a key exchange is attempted only in a step whose message is an L_prime equal to the value derived from
   the nonce stored after that step and the receiver's nonce, and what is written lets the receiver recover the key.
   */
  lemma KeyExchangeIsChecked(c: Crypto, m: Material, message: Bytes, choices: Choices, w: Write)
    requires w in Advance(c, m, message, choices).1 && w.message != [] && w.message[0] == SKE_SEND_EKS
    ensures var next := Advance(c, m, message, choices).0;
            && !m.sentSke
            && |message| >= 33 && message[0] == 0x0a
            && next.rn.Some? && m.rrx.Some? && next.rrx == m.rrx && next.version == m.version
            && message[1..33] == LPrime(c, m.rtx, m.km, next.rn.value, m.rrx.value, m.version)
            && |w.message| == 25
            && XorAt(w.message[1..17], 0, Mask(c, m.rtx, m.km, next.rn.value, m.rrx.value, m.version)) == choices.ks
  {
    hide LPrime, HPrime, Mask, XorAt, SkeSendEks;
    NotKeyExchange(choices.rn, choices.lcInitDelivered, w);
    var started := if m.sentLcInit then m else SendLcInit(m, choices).0;
    if started.rn.Some? && m.rrx.Some? {
      ReceiverRecoversKey(c, m.rtx, m.km, started.rn.value, m.rrx.value, m.version, choices.ks, choices.riv);
    }
  }

  lemma NotKeyExchange(rn: Bytes8, delivered: bool, w: Write)
    requires w.message != [] && w.message[0] == SKE_SEND_EKS
    ensures w != Write(LcInit(rn), delivered)
  {
  }
}

/** The key layout of the chain database, in the old format (keyed by hash) and in the new one, where
    a block's number comes before its hash so that its entries lie in order of their numbers. */
module DbKeys {
  import opened Wrappers

  type Byte = b: int | 0 <= b < 256
  type Bytes = seq<Byte>

  datatype Part = Header | Body | Td

  datatype Key =
    | OldNum(num: nat)
    | OldBlock(hash: nat, part: Part)
    | OldReceipts(hash: nat)
    | NewCanon(num: nat)
    | NewNumber(hash: nat)
    | NewBlock(num: nat, hash: nat, part: Part)
    | NewReceipts(num: nat, hash: nat)
    | LastHeader
    | Done
  {
    predicate Old() { OldNum? || OldBlock? || OldReceipts? }
  }

  // Numbers as bytes

  function Pow256(width: nat): (p: nat)
    ensures p > 0
  {
    if width == 0 then 1 else 256 * Pow256(width - 1)
  }

  function BigEndian(n: nat, width: nat): (s: Bytes)
    requires n < Pow256(width)
    ensures |s| == width
  {
    if width == 0 then [] else BigEndian(n / 256, width - 1) + [n % 256]
  }

  /** The shortest big-endian form; zero has no bytes at all. */
  function Minimal(n: nat): (s: Bytes) {
    if n == 0 then [] else Minimal(n / 256) + [n % 256]
  }

  function FromBytes(s: Bytes): (n: nat) {
    if s == [] then 0 else 256 * FromBytes(s[..|s| - 1]) + s[|s| - 1]
  }

  lemma {:induction false} BigEndianRoundTrip(n: nat, width: nat)
    requires n < Pow256(width)
    ensures FromBytes(BigEndian(n, width)) == n
  {
    if width > 0 {
      BigEndianRoundTrip(n / 256, width - 1);
      assert BigEndian(n, width)[..width - 1] == BigEndian(n / 256, width - 1);
    }
  }

  lemma {:induction false} FromBytesRoundTrip(s: Bytes)
    ensures FromBytes(s) < Pow256(|s|) && BigEndian(FromBytes(s), |s|) == s
  {
    if s != [] {
      FromBytesRoundTrip(s[..|s| - 1]);
      assert s == s[..|s| - 1] + [s[|s| - 1]];
    }
  }

  lemma {:induction false} MinimalRoundTrip(n: nat)
    ensures FromBytes(Minimal(n)) == n
  {
    if n > 0 {
      MinimalRoundTrip(n / 256);
      assert Minimal(n)[..|Minimal(n)| - 1] == Minimal(n / 256);
    }
  }

  lemma {:induction false} MinimalLength(n: nat, width: nat)
    requires n < Pow256(width)
    ensures |Minimal(n)| <= width
  {
    if n > 0 { MinimalLength(n / 256, width - 1); }
  }

  // Keys as bytes

  const NUMBERS: nat := 0x1_0000_0000_0000_0000 // what 8 bytes can hold
  const TWO63: nat := 0x8000_0000_0000_0000
  const HASHES: nat := Pow256(32)

  function NumberBytes(n: nat): (s: Bytes)
    requires n < NUMBERS
    ensures |s| == 8 && FromBytes(s) == n
  {
    assert Pow256(8) == NUMBERS;
    BigEndianRoundTrip(n, 8);
    BigEndian(n, 8)
  }

  function HashBytes(h: nat): (s: Bytes)
    requires h < HASHES
    ensures |s| == 32 && FromBytes(s) == h
  {
    BigEndianRoundTrip(h, 32);
    BigEndian(h, 32)
  }

  const OLD_BLOCK: Bytes := [98, 108, 111, 99, 107, 45] // "block-"
  const OLD_NUM: Bytes := OLD_BLOCK + [110, 117, 109, 45] // "block-num-"
  const OLD_RECEIPTS: Bytes := [114, 101, 99, 101, 105, 112, 116, 115, 45] + OLD_BLOCK // "receipts-block-"
  const OLD_HEADER: Bytes := [45, 104, 101, 97, 100, 101, 114] // "-header"
  const OLD_BODY: Bytes := [45, 98, 111, 100, 121] // "-body"
  const OLD_TD: Bytes := [45, 116, 100] // "-td"
  const LAST_HEADER: Bytes := [76, 97, 115, 116, 72, 101, 97, 100, 101, 114] // "LastHeader"
  const DONE: Bytes := // "dbUpgrade_20160530sequentialKeys"
    [100, 98, 85, 112, 103, 114, 97, 100, 101, 95, 50, 48, 49, 54, 48, 53, 51, 48, 115, 101, 113, 117, 101, 110, 116, 105, 97, 108,
     75, 101, 121, 115]
  const LOCK := 0x6c6f636b2d // "lock-"
  const ECEIPTS := 0x656365697074732d // "eceipts-"

  function OldSuffix(part: Part): (s: Bytes) {
    match part
    case Header => OLD_HEADER
    case Body => OLD_BODY
    case Td => OLD_TD
  }

  /** Numbers are 64 bits wide and hashes 256. */
  predicate Fits(k: Key) {
    && (k.OldNum? || k.NewCanon? || k.NewBlock? || k.NewReceipts? ==> k.num < NUMBERS)
    && (k.OldBlock? || k.OldReceipts? || k.NewNumber? || k.NewBlock? || k.NewReceipts? ==> k.hash < HASHES)
  }

  /** No number so large that its bytes spell out the rest of an old prefix. */
  predicate Plain(k: Key) {
    && (k.NewBlock? && k.part.Body? ==> k.num / 0x1000000 != LOCK)
    && (k.NewReceipts? ==> k.num != ECEIPTS)
  }

  function EncodeOld(k: Key): (s: Bytes)
    requires Fits(k) && k.Old()
  {
    match k
    case OldNum(n) => OLD_NUM + Minimal(n)
    case OldBlock(h, part) => OLD_BLOCK + HashBytes(h) + OldSuffix(part)
    case OldReceipts(h) => OLD_RECEIPTS + HashBytes(h)
  }

  function EncodeNew(k: Key): (s: Bytes)
    requires Fits(k) && !k.Old()
  {
    match k
    case NewCanon(n) => [104] + NumberBytes(n) + [110]
    case NewNumber(h) => [72] + HashBytes(h)
    case NewBlock(n, h, Header) => [104] + NumberBytes(n) + HashBytes(h)
    case NewBlock(n, h, Body) => [98] + NumberBytes(n) + HashBytes(h)
    case NewBlock(n, h, Td) => [104] + NumberBytes(n) + HashBytes(h) + [116]
    case NewReceipts(n, h) => [114] + NumberBytes(n) + HashBytes(h)
    case LastHeader => LAST_HEADER
    case Done => DONE
  }

  function Encode(k: Key): (s: Bytes)
    requires Fits(k)
  {
    if k.Old() then EncodeOld(k) else EncodeNew(k)
  }

  // How the three phases of the migration pick their keys

  predicate ScannedAsNumber(s: Bytes) { OLD_NUM <= s && |s| < 20 }
  predicate ScannedAsBlock(s: Bytes) { OLD_BLOCK <= s && |s| >= 38 }
  predicate ScannedAsReceipts(s: Bytes) { OLD_RECEIPTS <= s }

  lemma TopBytes(n: nat)
    requires n < NUMBERS
    ensures n / 0x1000000 < Pow256(5) && NumberBytes(n)[..5] == BigEndian(n / 0x1000000, 5)
  {
    var a, b := n / 256, n / 256 / 256;
    assert BigEndian(n, 8)[..7] == BigEndian(a, 7);
    assert BigEndian(a, 7)[..6] == BigEndian(b, 6);
    assert BigEndian(b, 6)[..5] == BigEndian(b / 256, 5);
    assert BigEndian(n, 8)[..5] == BigEndian(n, 8)[..7][..6][..5];
    assert b / 256 == n / 0x1000000;
  }

  lemma TopIsLock(n: nat)
    requires n < NUMBERS
    ensures NumberBytes(n)[..5] == OLD_BLOCK[1..] <==> n / 0x1000000 == LOCK
  {
    TopBytes(n);
    BigEndianRoundTrip(n / 0x1000000, 5);
    FromLock();
    FromBytesRoundTrip(OLD_BLOCK[1..]);
  }

  /** A new body key looks like an old block key exactly when its number begins with "lock-". */
  lemma BodyKeyScanned(n: nat, h: nat)
    requires Fits(NewBlock(n, h, Body))
    ensures ScannedAsBlock(Encode(NewBlock(n, h, Body))) <==> n / 0x1000000 == LOCK
  {
    var s := Encode(NewBlock(n, h, Body));
    TopIsLock(n);
    assert s[1..6] == NumberBytes(n)[..5];
    assert OLD_BLOCK == [98] + OLD_BLOCK[1..];
    assert s[..6] == [98] + s[1..6];
  }

  lemma Appended(s: Bytes, b: Byte)
    ensures FromBytes(s + [b]) == 256 * FromBytes(s) + b
  {
    assert (s + [b])[..|s|] == s;
  }

  lemma FromLock()
    ensures FromBytes(OLD_BLOCK[1..]) == LOCK
  {
    var a: Bytes := [] + [108];
    Appended([], 108);
    var b := a + [111];
    Appended(a, 111);
    var c := b + [99];
    Appended(b, 99);
    var d := c + [107];
    Appended(c, 107);
    var e := d + [45];
    Appended(d, 45);
    assert OLD_BLOCK[1..] == e;
  }

  lemma FromEceipts()
    ensures FromBytes(OLD_RECEIPTS[1..9]) == ECEIPTS
  {
    var a: Bytes := [] + [101];
    Appended([], 101);
    var b := a + [99];
    Appended(a, 99);
    var c := b + [101];
    Appended(b, 101);
    var d := c + [105];
    Appended(c, 105);
    var e := d + [112];
    Appended(d, 112);
    var f := e + [116];
    Appended(e, 116);
    var g := f + [115];
    Appended(f, 115);
    var h := g + [45];
    Appended(g, 45);
    assert OLD_RECEIPTS[1..9] == h;
  }

  lemma ReceiptsKeyNotScanned(n: nat, h: nat)
    requires Fits(NewReceipts(n, h)) && n != ECEIPTS
    ensures !ScannedAsReceipts(Encode(NewReceipts(n, h)))
  {
    var s := Encode(NewReceipts(n, h));
    if OLD_RECEIPTS <= s {
      assert s[1..9] == NumberBytes(n);
      assert s[1..9] == s[..15][1..9] == OLD_RECEIPTS[1..9];
      FromEceipts();
    }
  }

  lemma OldKeysScanned(k: Key)
    requires Fits(k) && k.Old()
    ensures ScannedAsNumber(Encode(k)) <==> k.OldNum?
    ensures ScannedAsBlock(Encode(k)) <==> k.OldBlock?
    ensures ScannedAsReceipts(Encode(k)) <==> k.OldReceipts?
  {
    var s := Encode(k);
    match k
    case OldNum(n) =>
      MinimalLength(n, 8);
      assert s[0] == 98;
    case OldBlock(h, part) => assert s[..6] == OLD_BLOCK && s[0] == 98 && |s| >= 41;
    case OldReceipts(h) => assert s[..15] == OLD_RECEIPTS && s[0] == 114;
    case _ => assert false;
  }

  lemma NewKeysNotScanned(k: Key)
    requires Fits(k) && Plain(k) && !k.Old()
    ensures !ScannedAsNumber(Encode(k)) && !ScannedAsBlock(Encode(k)) && !ScannedAsReceipts(Encode(k))
  {
    var s := Encode(k);
    if k.NewBlock? && k.part.Body? {
      BodyKeyScanned(k.num, k.hash);
      assert |s| == 41 && s[0] == 98;
    } else if k.NewReceipts? {
      ReceiptsKeyNotScanned(k.num, k.hash);
      assert s[0] == 114;
    } else {
      assert s[0] in {104, 72, 76, 100};
    }
  }

  /** Each phase's scan finds the keys of its own kind, and none of the others. */
  lemma ScansFindTheirKeys(k: Key)
    requires Fits(k) && Plain(k)
    ensures ScannedAsNumber(Encode(k)) <==> k.OldNum?
    ensures ScannedAsBlock(Encode(k)) <==> k.OldBlock?
    ensures ScannedAsReceipts(Encode(k)) <==> k.OldReceipts?
  {
    if k.Old() {
      OldKeysScanned(k);
    } else {
      NewKeysNotScanned(k);
    }
  }

  // Distinct keys have distinct bytes: the key can be read back

  function Decode(s: Bytes): (k: Option<Key>) {
    if s == LAST_HEADER then Some(LastHeader)
    else if s == DONE then Some(Done)
    else if ScannedAsNumber(s) then Some(OldNum(FromBytes(s[10..])))
    else if ScannedAsBlock(s) then
      var h := FromBytes(s[6..38]);
      if s[38..] == OLD_HEADER then Some(OldBlock(h, Header))
      else if s[38..] == OLD_BODY then Some(OldBlock(h, Body))
      else if s[38..] == OLD_TD then Some(OldBlock(h, Td))
      else None
    else if ScannedAsReceipts(s) then Some(OldReceipts(FromBytes(s[15..])))
    else DecodeNew(s)
  }

  function DecodeNew(s: Bytes): (k: Option<Key>) {
    if |s| == 10 then Some(NewCanon(FromBytes(s[1..9])))
    else if |s| == 33 then Some(NewNumber(FromBytes(s[1..])))
    else if |s| == 42 then Some(NewBlock(FromBytes(s[1..9]), FromBytes(s[9..41]), Td))
    else if |s| == 41 then
      var n, h := FromBytes(s[1..9]), FromBytes(s[9..]);
      if s[0] == 104 then Some(NewBlock(n, h, Header))
      else if s[0] == 98 then Some(NewBlock(n, h, Body))
      else Some(NewReceipts(n, h))
    else None
  }

  lemma NewKeyParts(k: Key)
    requires Fits(k) && (k.NewBlock? || k.NewReceipts?)
    ensures FromBytes(Encode(k)[1..9]) == k.num && FromBytes(Encode(k)[9..41]) == k.hash
  {
    assert Encode(k)[1..9] == NumberBytes(k.num);
    assert Encode(k)[9..41] == HashBytes(k.hash);
  }

  lemma OldKeyParts(k: Key)
    requires Fits(k) && k.Old()
    ensures k.OldNum? ==> FromBytes(Encode(k)[10..]) == k.num
    ensures k.OldBlock? ==> FromBytes(Encode(k)[6..38]) == k.hash && Encode(k)[38..] == OldSuffix(k.part)
    ensures k.OldReceipts? ==> FromBytes(Encode(k)[15..]) == k.hash
  {
    match k
    case OldNum(n) =>
      MinimalRoundTrip(n);
      assert Encode(k)[10..] == Minimal(n);
    case OldBlock(h, part) =>
      assert Encode(k)[6..38] == HashBytes(h) && Encode(k)[38..] == OldSuffix(part);
    case OldReceipts(h) =>
      assert Encode(k)[15..] == HashBytes(h);
    case _ =>
  }

  lemma NumberedRoundTrip(k: Key)
    requires Fits(k) && (k.NewBlock? || k.NewReceipts?)
    ensures DecodeNew(Encode(k)) == Some(k)
  {
    var s := Encode(k);
    NewKeyParts(k);
    if k.NewBlock? && k.part.Td? {
      assert |s| == 42;
    } else {
      assert |s| == 41 && s[9..] == s[9..41];
    }
  }

  lemma NewRoundTrip(k: Key)
    requires Fits(k) && !k.Old() && !k.LastHeader? && !k.Done?
    ensures DecodeNew(Encode(k)) == Some(k)
  {
    var s := Encode(k);
    match k
    case NewCanon(n) => assert |s| == 10 && s[1..9] == NumberBytes(n);
    case NewNumber(h) => assert |s| == 33 && s[1..] == HashBytes(h);
    case _ => NumberedRoundTrip(k);
  }

  lemma OldRoundTrip(k: Key)
    requires Fits(k) && k.Old()
    ensures Decode(Encode(k)) == Some(k)
  {
    OldKeysScanned(k);
    OldKeyParts(k);
    assert Encode(k)[0] in {98, 114};
  }

  lemma KeyRoundTrip(k: Key)
    requires Fits(k) && Plain(k)
    ensures Decode(Encode(k)) == Some(k)
  {
    if k.Old() {
      OldRoundTrip(k);
    } else if !k.LastHeader? && !k.Done? {
      NewKeysNotScanned(k);
      assert Encode(k)[0] in {104, 72, 98, 114};
      NewRoundTrip(k);
    }
  }
}

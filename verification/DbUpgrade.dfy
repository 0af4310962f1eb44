/** The migration of the chain database from keys by hash to keys by number and hash, against the
    readers that look under the new key first and under the old one after it. */
module DbUpgrade {
  import opened Wrappers
  import opened DbKeys

  type Db = map<Key, Bytes>

  /** The number in an encoded header, unless the header cannot be decoded. */
  type Codec = Bytes -> Option<nat>

  /** What a key holds; a missing key reads as no bytes. */
  function Get(db: Db, k: Key): (v: Bytes) {
    if k in db then db[k] else []
  }

  ghost predicate NonEmpty(db: Db) {
    forall k :: k in db ==> db[k] != []
  }

  // The readers

  datatype NumberRead = Number(n: nat) | Missing | Undecodable

  /** The hash filed under a number. The old key is made from the number as a signed integer. */
  function ReadCanonical(db: Db, n: nat): (v: Bytes)
    requires n < NUMBERS
  {
    var v := Get(db, NewCanon(n));
    if v == [] then Get(db, OldNum(if n < TWO63 then n else NUMBERS - n)) else v
  }

  /** The number in a header, as 64 bits. */
  function Truncated(num: Codec, rlp: Bytes): (r: NumberRead) {
    match num(rlp)
    case None => Undecodable
    case Some(n) => Number(n % NUMBERS)
  }

  function ReadNumber(num: Codec, db: Db, h: nat): (r: NumberRead) {
    var v := Get(db, NewNumber(h));
    if |v| == 8 then Number(FromBytes(v))
    else
      var was := Get(db, OldBlock(h, Header));
      if was == [] then Missing else Truncated(num, was)
  }

  function ReadPart(db: Db, n: nat, h: nat, p: Part): (v: Bytes) {
    var v := Get(db, NewBlock(n, h, p));
    if v == [] then Get(db, OldBlock(h, p)) else v
  }

  function ReadReceipts(db: Db, n: nat, h: nat): (v: Bytes) {
    var v := Get(db, NewReceipts(n, h));
    if v == [] then Get(db, OldReceipts(h)) else v
  }

  predicate Stored(num: Codec, db: Db, n: nat, h: nat) {
    ReadNumber(num, db, h) == Number(n) && ReadPart(db, n, h, Header) != []
  }

  ghost predicate SameBlock(num: Codec, a: Db, b: Db, n: nat, h: nat) {
    && ReadNumber(num, b, h) == ReadNumber(num, a, h)
    && (forall p :: ReadPart(b, n, h, p) == ReadPart(a, n, h, p))
    && ReadReceipts(b, n, h) == ReadReceipts(a, n, h)
  }

  /** Every canonical hash, and every stored block, reads in `b` as it does in `a`. */
  ghost predicate SameReads(num: Codec, a: Db, b: Db) {
    && (forall n: nat :: n < TWO63 ==> ReadCanonical(b, n) == ReadCanonical(a, n))
    && (forall n: nat, h: nat :: Stored(num, a, n, h) ==> SameBlock(num, a, b, n, h))
  }

  // What the migration makes of each key

  /** The number that the migration files a block under, if its old header is there. */
  function OldNumber(num: Codec, db: Db, h: nat): (r: NumberRead) {
    var was := Get(db, OldBlock(h, Header));
    if was == [] then Missing else Truncated(num, was)
  }

  function Replaced(db: Db, from: Key, k: Key): (v: Bytes) {
    var v := Get(db, from);
    if v == [] then Get(db, k) else v
  }

  /** What a key holds once the migration is over. A block whose old header cannot be decoded stops
      the migration, so its old entries stay. */
  ghost function Target(num: Codec, db: Db, k: Key): (v: Bytes) {
    match k
    case OldNum(n) => []
    case OldBlock(h, p) => if OldNumber(num, db, h) == Undecodable then Get(db, k) else []
    case OldReceipts(h) => if OldNumber(num, db, h) == Undecodable then Get(db, k) else []
    case NewCanon(n) => Replaced(db, OldNum(n), k)
    case NewNumber(h) =>
      var r := OldNumber(num, db, h);
      if r.Number? then NumberBytes(r.n) else Get(db, k)
    case NewBlock(n, h, p) => if OldNumber(num, db, h) == Number(n) then Replaced(db, OldBlock(h, p), k) else Get(db, k)
    case NewReceipts(n, h) => if OldNumber(num, db, h) == Number(n) then Replaced(db, OldReceipts(h), k) else Get(db, k)
    case LastHeader => Get(db, k)
    case Done => [42]
  }

  ghost predicate Same(num: Codec, a: Db, b: Db) {
    forall k :: Target(num, b, k) == Target(num, a, k)
  }

  // When the two formats agree

  predicate Agree(db: Db, from: Key, k: Key) {
    Get(db, from) == [] || Get(db, k) == [] || Get(db, from) == Get(db, k)
  }

  /** What the two formats hold of a block agrees; and if only the new format has its header, then
      whatever the old one holds of it the new one has as well. */
  ghost predicate CoherentBlock(num: Codec, db: Db, h: nat) {
    match OldNumber(num, db, h)
    case Undecodable => true
    case Number(n) =>
      && (|Get(db, NewNumber(h))| == 8 ==> FromBytes(Get(db, NewNumber(h))) == n)
      && (forall p :: Agree(db, OldBlock(h, p), NewBlock(n, h, p)))
      && Agree(db, OldReceipts(h), NewReceipts(n, h))
    case Missing =>
      forall n: nat :: Stored(num, db, n, h) ==>
        && (forall p :: Get(db, OldBlock(h, p)) != [] ==> Get(db, NewBlock(n, h, p)) != [])
        && (Get(db, OldReceipts(h)) != [] ==> Get(db, NewReceipts(n, h)) != [])
  }

  ghost predicate Coherent(num: Codec, db: Db) {
    && (forall n: nat :: n < TWO63 ==> Agree(db, OldNum(n), NewCanon(n)))
    && (forall h: nat :: CoherentBlock(num, db, h))
  }

  // Reads of a coherent database are reads of what the migration will make of it

  ghost function TargetPart(num: Codec, db: Db, n: nat, h: nat, p: Part): (v: Bytes) {
    var v := Target(num, db, NewBlock(n, h, p));
    if v == [] then Target(num, db, OldBlock(h, p)) else v
  }

  ghost function TargetReceipts(num: Codec, db: Db, n: nat, h: nat): (v: Bytes) {
    var v := Target(num, db, NewReceipts(n, h));
    if v == [] then Target(num, db, OldReceipts(h)) else v
  }

  ghost function TargetNumber(num: Codec, db: Db, h: nat): (r: NumberRead) {
    var v := Target(num, db, NewNumber(h));
    if |v| == 8 then Number(FromBytes(v))
    else if Target(num, db, OldBlock(h, Header)) == [] then Missing
    else Undecodable
  }

  lemma NumberIsTarget(num: Codec, db: Db, h: nat)
    requires CoherentBlock(num, db, h)
    ensures ReadNumber(num, db, h) == TargetNumber(num, db, h)
  {
  }

  lemma BlockIsTarget(num: Codec, db: Db, n: nat, h: nat)
    requires CoherentBlock(num, db, h) && ReadNumber(num, db, h) == Number(n)
    ensures ReadPart(db, n, h, Header) == TargetPart(num, db, n, h, Header)
    ensures Stored(num, db, n, h) ==> forall p :: ReadPart(db, n, h, p) == TargetPart(num, db, n, h, p)
    ensures Stored(num, db, n, h) ==> ReadReceipts(db, n, h) == TargetReceipts(num, db, n, h)
  {
  }

  /** As long as the databases stay coherent and head for the same result, reads do not change. */
  lemma CoherentReads(num: Codec, a: Db, b: Db)
    requires Coherent(num, a) && Coherent(num, b) && Same(num, a, b)
    ensures SameReads(num, a, b)
  {
    forall n: nat | n < TWO63
      ensures ReadCanonical(b, n) == ReadCanonical(a, n)
    {
      assert Agree(a, OldNum(n), NewCanon(n)) && Agree(b, OldNum(n), NewCanon(n));
      assert Target(num, b, NewCanon(n)) == Target(num, a, NewCanon(n));
    }
    forall n: nat, h: nat | Stored(num, a, n, h)
      ensures SameBlock(num, a, b, n, h)
    {
      BlockReads(num, a, b, n, h);
    }
  }

  lemma BlockReads(num: Codec, a: Db, b: Db, n: nat, h: nat)
    requires CoherentBlock(num, a, h) && CoherentBlock(num, b, h) && Same(num, a, b)
    requires Stored(num, a, n, h)
    ensures SameBlock(num, a, b, n, h)
  {
    NumberIsTarget(num, a, h);
    NumberIsTarget(num, b, h);
    BlockIsTarget(num, a, n, h);
    BlockIsTarget(num, b, n, h);
  }

  // The steps

  /** `b` holds `v` under `k`, or nothing if `v` is empty, and is otherwise as `a`. */
  ghost predicate Wrote(a: Db, b: Db, k: Key, v: Bytes) {
    forall x :: Get(b, x) == if x == k then v else Get(a, x)
  }

  lemma PutWrote(db: Db, k: Key, v: Bytes)
    requires NonEmpty(db) && v != []
    ensures NonEmpty(db[k := v]) && Wrote(db, db[k := v], k, v)
  {
  }

  lemma DeleteWrote(db: Db, k: Key)
    requires NonEmpty(db)
    ensures NonEmpty(db - {k}) && Wrote(db, db - {k}, k, [])
  {
  }

  /** Storing what the migration makes of a new key changes nothing about its result. */
  lemma PutSame(num: Codec, a: Db, b: Db, k: Key)
    requires !k.Old() && Wrote(a, b, k, Target(num, a, k))
    ensures Same(num, a, b)
  {
    forall x
      ensures Target(num, b, x) == Target(num, a, x)
    {
      PutTarget(num, a, b, k, x);
    }
  }

  lemma PutTarget(num: Codec, a: Db, b: Db, k: Key, x: Key)
    requires !k.Old() && Wrote(a, b, k, Target(num, a, k))
    ensures Target(num, b, x) == Target(num, a, x)
  {
    match x
    case NewBlock(n, h, p) => PutNumber(num, a, b, k, h);
    case NewReceipts(n, h) => PutNumber(num, a, b, k, h);
    case NewNumber(h) => PutNumber(num, a, b, k, h);
    case OldBlock(h, p) => PutNumber(num, a, b, k, h);
    case OldReceipts(h) => PutNumber(num, a, b, k, h);
    case _ =>
  }

  lemma PutNumber(num: Codec, a: Db, b: Db, k: Key, h: nat)
    requires !k.Old() && Wrote(a, b, k, Target(num, a, k))
    ensures OldNumber(num, b, h) == OldNumber(num, a, h)
  {
  }

  lemma PutCoherent(num: Codec, a: Db, b: Db, k: Key)
    requires !k.Old() && Coherent(num, a) && Wrote(a, b, k, Target(num, a, k))
    ensures Coherent(num, b)
  {
    forall n: nat | n < TWO63
      ensures Agree(b, OldNum(n), NewCanon(n))
    {
      assert Agree(a, OldNum(n), NewCanon(n));
    }
    forall h: nat
      ensures CoherentBlock(num, b, h)
    {
      PutCoherentBlock(num, a, b, k, h);
    }
  }

  lemma PutCoherentBlock(num: Codec, a: Db, b: Db, k: Key, h: nat)
    requires !k.Old() && CoherentBlock(num, a, h) && Wrote(a, b, k, Target(num, a, k))
    ensures CoherentBlock(num, b, h)
  {
    PutNumber(num, a, b, k, h);
    match OldNumber(num, a, h)
    case Undecodable =>
    case Number(n) => PutCoherentKnown(num, a, b, k, n, h);
    case Missing => PutCoherentMissing(num, a, b, k, h);
  }

  lemma PutCoherentKnown(num: Codec, a: Db, b: Db, k: Key, n: nat, h: nat)
    requires !k.Old() && CoherentBlock(num, a, h) && Wrote(a, b, k, Target(num, a, k))
    requires OldNumber(num, b, h) == OldNumber(num, a, h) == Number(n)
    ensures CoherentBlock(num, b, h)
  {
    assert Get(b, NewNumber(h)) == Get(a, NewNumber(h)) || Get(b, NewNumber(h)) == NumberBytes(n);
    forall p
      ensures Agree(b, OldBlock(h, p), NewBlock(n, h, p))
    {
      assert Agree(a, OldBlock(h, p), NewBlock(n, h, p));
    }
  }

  lemma PutCoherentMissing(num: Codec, a: Db, b: Db, k: Key, h: nat)
    requires !k.Old() && CoherentBlock(num, a, h) && Wrote(a, b, k, Target(num, a, k))
    requires OldNumber(num, b, h) == OldNumber(num, a, h) == Missing
    ensures CoherentBlock(num, b, h)
  {
    assert Get(b, NewNumber(h)) == Get(a, NewNumber(h));
    forall n: nat, p
      ensures Get(b, NewBlock(n, h, p)) == Get(a, NewBlock(n, h, p))
      ensures Get(b, NewReceipts(n, h)) == Get(a, NewReceipts(n, h))
    {
    }
    forall n: nat | Stored(num, b, n, h)
      ensures Stored(num, a, n, h)
    {
    }
  }

  /** All there is of a block in the old format is in the new one. */
  ghost predicate Copied(num: Codec, db: Db, h: nat) {
    match OldNumber(num, db, h)
    case Missing => true
    case Undecodable => false
    case Number(n) =>
      && Get(db, NewNumber(h)) == NumberBytes(n)
      && (forall p :: Get(db, OldBlock(h, p)) != [] ==> Get(db, NewBlock(n, h, p)) == Get(db, OldBlock(h, p)))
      && (Get(db, OldReceipts(h)) != [] ==> Get(db, NewReceipts(n, h)) == Get(db, OldReceipts(h)))
  }

  ghost predicate Settled(num: Codec, db: Db, o: Key) {
    match o
    case OldNum(n) => Get(db, OldNum(n)) != [] ==> Get(db, NewCanon(n)) == Get(db, OldNum(n))
    case OldBlock(h, p) => Copied(num, db, h)
    case OldReceipts(h) => Copied(num, db, h)
    case _ => false
  }

  /** Deleting an old entry that the new format has changes nothing about the result either. */
  lemma DeleteSame(num: Codec, a: Db, b: Db, o: Key)
    requires Settled(num, a, o) && Wrote(a, b, o, [])
    ensures Same(num, a, b)
  {
    forall x
      ensures Target(num, b, x) == Target(num, a, x)
    {
      DeleteTarget(num, a, b, o, x);
    }
  }

  lemma DeleteTarget(num: Codec, a: Db, b: Db, o: Key, x: Key)
    requires Settled(num, a, o) && Wrote(a, b, o, [])
    ensures Target(num, b, x) == Target(num, a, x)
  {
    match x
    case NewBlock(n, h, p) => DeleteTargetBlock(num, a, b, o, n, h, p);
    case NewReceipts(n, h) => DeleteTargetReceipts(num, a, b, o, n, h);
    case NewNumber(h) => DeleteNumber(num, a, b, o, h);
    case OldBlock(h, p) => DeleteNumber(num, a, b, o, h);
    case OldReceipts(h) => DeleteNumber(num, a, b, o, h);
    case _ =>
  }

  lemma DeleteTargetBlock(num: Codec, a: Db, b: Db, o: Key, n: nat, h: nat, p: Part)
    requires Settled(num, a, o) && Wrote(a, b, o, [])
    ensures Target(num, b, NewBlock(n, h, p)) == Target(num, a, NewBlock(n, h, p))
  {
    DeleteNumber(num, a, b, o, h);
  }

  lemma DeleteTargetReceipts(num: Codec, a: Db, b: Db, o: Key, n: nat, h: nat)
    requires Settled(num, a, o) && Wrote(a, b, o, [])
    ensures Target(num, b, NewReceipts(n, h)) == Target(num, a, NewReceipts(n, h))
  {
    DeleteNumber(num, a, b, o, h);
  }

  lemma DeleteNumber(num: Codec, a: Db, b: Db, o: Key, h: nat)
    requires Settled(num, a, o) && Wrote(a, b, o, [])
    ensures OldNumber(num, b, h) == if o == OldBlock(h, Header) then Missing else OldNumber(num, a, h)
  {
  }

  lemma DeleteCopied(num: Codec, a: Db, b: Db, o: Key, h: nat)
    requires Settled(num, a, o) && Wrote(a, b, o, []) && Copied(num, a, h)
    ensures Copied(num, b, h)
  {
  }

  lemma DeleteCoherentBlock(num: Codec, a: Db, b: Db, o: Key, h: nat)
    requires Settled(num, a, o) && Wrote(a, b, o, []) && CoherentBlock(num, a, h)
    ensures CoherentBlock(num, b, h)
  {
    if o == OldBlock(h, Header) && OldNumber(num, a, h).Number? {
      DeleteHeaderCoherent(num, a, b, h);
    } else {
      DeleteNumber(num, a, b, o, h);
      forall n: nat, p
        ensures Get(b, OldBlock(h, p)) != [] ==> Get(b, OldBlock(h, p)) == Get(a, OldBlock(h, p))
        ensures Get(b, NewBlock(n, h, p)) == Get(a, NewBlock(n, h, p))
      {
      }
      forall n: nat | Stored(num, b, n, h)
        ensures Stored(num, a, n, h)
      {
      }
      assert forall n: nat, p :: Agree(a, OldBlock(h, p), NewBlock(n, h, p)) ==> Agree(b, OldBlock(h, p), NewBlock(n, h, p));
    }
  }

  lemma DeleteHeaderCoherent(num: Codec, a: Db, b: Db, h: nat)
    requires Copied(num, a, h) && Wrote(a, b, OldBlock(h, Header), []) && OldNumber(num, a, h).Number?
    ensures CoherentBlock(num, b, h)
  {
    var n0 := OldNumber(num, a, h).n;
    assert Get(b, NewNumber(h)) == NumberBytes(n0);
    forall n: nat | Stored(num, b, n, h)
      ensures n == n0
    {
    }
  }

  lemma DeleteCoherent(num: Codec, a: Db, b: Db, o: Key)
    requires Settled(num, a, o) && Wrote(a, b, o, []) && Coherent(num, a)
    ensures Coherent(num, b)
  {
    forall n: nat | n < TWO63
      ensures Agree(b, OldNum(n), NewCanon(n))
    {
      assert Agree(a, OldNum(n), NewCanon(n));
    }
    forall h: nat
      ensures CoherentBlock(num, b, h)
    {
      DeleteCoherentBlock(num, a, b, o, h);
    }
  }

  /** `b` heads for the same result as `a`, is coherent if `a` is, and has the same completion flag. */
  ghost predicate Follows(num: Codec, a: Db, b: Db) {
    NonEmpty(b) && Same(num, a, b) && (Coherent(num, a) ==> Coherent(num, b)) && Get(b, Done) == Get(a, Done)
  }

  // The migration. `budget` is the number of writes left before the process dies, which covers a
  // failing write and a request to stop as well.

  datatype Outcome = Completed | Stopped | Failed

  method Put(ghost num: Codec, db: Db, k: Key, v: Bytes, budget: nat) returns (db': Db, budget': nat, ok: bool)
    requires NonEmpty(db) && !k.Old() && !k.Done? && v == Target(num, db, k) && v != []
    ensures ok <==> budget > 0
    ensures db' == (if ok then db[k := v] else db) && (ok ==> budget' == budget - 1)
    ensures Follows(num, db, db')
  {
    if budget == 0 { return db, 0, false; }
    db', budget', ok := db[k := v], budget - 1, true;
    PutWrote(db, k, v);
    PutSame(num, db, db', k);
    if Coherent(num, db) { PutCoherent(num, db, db', k); }
  }

  method Delete(ghost num: Codec, db: Db, o: Key, budget: nat) returns (db': Db, budget': nat, ok: bool)
    requires NonEmpty(db) && Settled(num, db, o)
    ensures ok <==> budget > 0
    ensures db' == (if ok then db - {o} else db) && (ok ==> budget' == budget - 1)
    ensures Follows(num, db, db')
    ensures forall h: nat :: Copied(num, db, h) ==> Copied(num, db', h)
  {
    if budget == 0 { return db, 0, false; }
    db', budget', ok := db - {o}, budget - 1, true;
    DeleteWrote(db, o);
    DeleteSame(num, db, db', o);
    if Coherent(num, db) { DeleteCoherent(num, db, db', o); }
    forall h: nat | Copied(num, db, h)
      ensures Copied(num, db', h)
    {
      DeleteCopied(num, db, db', o, h);
    }
  }

  /** The keys an iterator over a snapshot of the database comes to, in some order. */
  method Scan(db: Db, wanted: Key -> bool) returns (ks: seq<Key>)
    ensures forall k :: k in ks <==> k in db && wanted(k)
    ensures forall i, j :: 0 <= i < j < |ks| ==> ks[i] != ks[j]
  {
    ks := [];
    var todo := db.Keys;
    while todo != {}
      invariant todo <= db.Keys
      invariant forall k :: k in ks <==> k in db.Keys - todo && wanted(k)
      invariant forall i, j :: 0 <= i < j < |ks| ==> ks[i] != ks[j]
      decreases |todo|
    {
      var k :| k in todo;
      todo := todo - {k};
      if wanted(k) { ks := ks + [k]; }
    }
  }

  /** The first phase: canonical numbers. */
  method ConvertNumbers(ghost num: Codec, db0: Db, budget0: nat) returns (db: Db, budget: nat, done: bool)
    requires NonEmpty(db0)
    ensures Follows(num, db0, db)
    ensures done ==> forall k :: k in db ==> !k.OldNum?
  {
    db, budget := db0, budget0;
    var ks := Scan(db, (k: Key) => k.OldNum?);
    for i := 0 to |ks|
      invariant Follows(num, db0, db)
      invariant forall k :: k in db && k.OldNum? ==> k in ks[i..]
      invariant forall k :: k in ks[i..] ==> k in db
    {
      assert ks[i..] == [ks[i]] + ks[i + 1..];
      var ok;
      assert ks[i] in ks;
      db, budget, ok := Put(num, db, NewCanon(ks[i].num), db[ks[i]], budget);
      if !ok { return db, budget, false; }
      db, budget, ok := Delete(num, db, ks[i], budget);
      if !ok { return db, budget, false; }
    }
    done := true;
  }

  ghost predicate Final(num: Codec, db: Db, k: Key) {
    Get(db, k) == Target(num, db, k)
  }

  /** Nothing is lost from `a` to `b`: old entries are untouched, and so are new ones that had
      their final value. */
  ghost predicate Grows(num: Codec, a: Db, b: Db) {
    && Follows(num, a, b)
    && (forall k: Key :: k.Old() ==> Get(b, k) == Get(a, k))
    && (forall k: Key :: Final(num, a, k) ==> Final(num, b, k))
  }

  lemma GrowsOn(num: Codec, a: Db, b: Db, c: Db)
    requires Grows(num, a, b) && Grows(num, b, c)
    ensures Grows(num, a, c)
  {
  }

  /** Stores a value that the old format has, if it has it. */
  method Copy(ghost num: Codec, db: Db, from: Key, k: Key, budget: nat) returns (db': Db, budget': nat, ok: bool)
    requires NonEmpty(db) && !k.Old() && !k.Done? && Target(num, db, k) == Replaced(db, from, k)
    ensures Grows(num, db, db')
    ensures ok ==> Final(num, db', k)
  {
    if from in db {
      db', budget', ok := Put(num, db, k, db[from], budget);
    } else {
      db', budget', ok := db, budget, true;
    }
  }

  /** Copies the header, total difficulty, body and receipts of one block. */
  method ConvertBlock(num: Codec, db0: Db, h: nat, budget0: nat) returns (db: Db, budget: nat, outcome: Outcome)
    requires NonEmpty(db0)
    ensures Grows(num, db0, db)
    ensures outcome.Completed? ==> Copied(num, db, h)
    ensures outcome.Failed? ==> OldBlock(h, Header) in db0 && num(db0[OldBlock(h, Header)]).None?
    ensures outcome.Completed? && OldBlock(h, Header) in db0 ==>
              var n := num(db0[OldBlock(h, Header)]);
              n.Some? && FiledUnder(db0, db, h, n.value % 0x1_0000_0000_0000_0000)
  {
    db, budget, outcome := db0, budget0, Stopped;
    var header := Get(db, OldBlock(h, Header));
    if header == [] { outcome := Completed; return; }
    var r := Truncated(num, header);
    if r.Undecodable? { outcome := Failed; return; }
    var ok;
    db, budget, ok := ConvertHeader(num, db, r.n, h, budget);
    if !ok { return; }
    db, budget, ok := ConvertRest(num, db, r.n, h, budget);
    if ok {
      outcome := Completed;
      assert forall k: Key :: k.Old() ==> Get(db, k) == Get(db0, k);
    }
  }

  /** All that the old format held of a block is in the new one, under this number. */
  ghost predicate FiledUnder(a: Db, b: Db, h: nat, n: nat)
    requires n < NUMBERS
  {
    && Get(b, NewNumber(h)) == NumberBytes(n)
    && (forall p :: OldBlock(h, p) in a ==> Get(b, NewBlock(n, h, p)) == a[OldBlock(h, p)])
    && (OldReceipts(h) in a ==> Get(b, NewReceipts(n, h)) == a[OldReceipts(h)])
  }

  /** A header in the old format whose number fits 64 bits reads as that number, and one whose number does not
      as another one. */
  lemma HeaderNumber(num: Codec, db: Db, h: nat, n: nat)
    requires OldBlock(h, Header) in db && db[OldBlock(h, Header)] != [] && num(db[OldBlock(h, Header)]) == Some(n)
    requires |Get(db, NewNumber(h))| != 8
    ensures ReadNumber(num, db, h) == Number(n) <==> n < 0x1_0000_0000_0000_0000
    ensures exists k: nat :: ReadNumber(num, db, h) == Number(k) && k < 0x1_0000_0000_0000_0000 && (n - k) % 0x1_0000_0000_0000_0000 == 0
  {
    var k: nat := n % 0x1_0000_0000_0000_0000;
    assert ReadNumber(num, db, h) == Number(k);
    assert n - k == n / 0x1_0000_0000_0000_0000 * 0x1_0000_0000_0000_0000;
  }

  method ConvertHeader(ghost num: Codec, db0: Db, n: nat, h: nat, budget0: nat) returns (db: Db, budget: nat, ok: bool)
    requires NonEmpty(db0) && OldNumber(num, db0, h) == Number(n) && n < NUMBERS
    ensures Grows(num, db0, db)
    ensures ok ==> Final(num, db, NewNumber(h))
    ensures ok ==> Final(num, db, NewBlock(n, h, Header))
  {
    db, budget, ok := Put(num, db0, NewNumber(h), NumberBytes(n), budget0);
    if ok {
      db, budget, ok := Copy(num, db, OldBlock(h, Header), NewBlock(n, h, Header), budget);
    }
  }

  method ConvertRest(ghost num: Codec, db0: Db, n: nat, h: nat, budget0: nat) returns (db: Db, budget: nat, ok: bool)
    requires NonEmpty(db0) && OldNumber(num, db0, h) == Number(n)
    requires Final(num, db0, NewNumber(h))
    requires Final(num, db0, NewBlock(n, h, Header))
    ensures Grows(num, db0, db)
    ensures ok ==> Copied(num, db, h)
  {
    db, budget, ok := Copy(num, db0, OldBlock(h, Td), NewBlock(n, h, Td), budget0);
    if !ok { return; }
    ghost var db1 := db;
    assert OldNumber(num, db, h) == Number(n);
    db, budget, ok := Copy(num, db, OldBlock(h, Body), NewBlock(n, h, Body), budget);
    GrowsOn(num, db0, db1, db);
    if !ok { return; }
    ghost var db2 := db;
    assert OldNumber(num, db, h) == Number(n);
    db, budget, ok := Copy(num, db, OldReceipts(h), NewReceipts(n, h), budget);
    GrowsOn(num, db0, db2, db);
    if ok {
      assert OldNumber(num, db, h) == Number(n);
      AllCopied(num, db, n, h);
    }
  }

  lemma AllCopied(num: Codec, db: Db, n: nat, h: nat)
    requires OldNumber(num, db, h) == Number(n)
    requires Final(num, db, NewNumber(h))
    requires Final(num, db, NewBlock(n, h, Header)) && Final(num, db, NewBlock(n, h, Td)) && Final(num, db, NewBlock(n, h, Body))
    requires Final(num, db, NewReceipts(n, h))
    ensures Copied(num, db, h)
  {
    forall p
      ensures Final(num, db, NewBlock(n, h, p))
    {
      match p
      case Header =>
      case Body =>
      case Td =>
    }
  }

  lemma FollowsOn(num: Codec, a: Db, b: Db, c: Db)
    requires Follows(num, a, b) && Follows(num, b, c)
    ensures Follows(num, a, c)
  {
  }

  /** Deletes the old entries of one block as the iterator comes to them, then its receipts. */
  method DeleteBlock(ghost num: Codec, db0: Db, ks: seq<Key>, i0: nat, h: nat, budget0: nat)
    returns (db: Db, i: nat, budget: nat, ok: bool)
    requires NonEmpty(db0) && Copied(num, db0, h)
    requires i0 < |ks| && forall k :: k in ks ==> k.OldBlock?
    requires ks[i0].hash == h
    ensures Follows(num, db0, db)
    ensures ok ==> i0 < i <= |ks| && forall k :: k in db && k !in ks[i..] ==> k in db0 && k !in ks[i0..]
  {
    db, i, budget := db0, i0, budget0;
    while i < |ks| && ks[i].hash == h
      invariant i0 <= i <= |ks|
      invariant Follows(num, db0, db) && Copied(num, db, h)
      invariant forall k :: k in db && k !in ks[i..] ==> k in db0 && k !in ks[i0..]
      invariant i == i0 ==> db == db0
    {
      assert ks[i] in ks && ks[i..] == [ks[i]] + ks[i + 1..];
      ghost var before := db;
      db, budget, ok := Delete(num, db, ks[i], budget);
      FollowsOn(num, db0, before, db);
      if !ok { return; }
      i := i + 1;
    }
    ghost var before := db;
    db, budget, ok := Delete(num, db, OldReceipts(h), budget);
    FollowsOn(num, db0, before, db);
  }

  /** The second phase: headers, bodies, total difficulties and receipts of blocks. */
  method ConvertBlocks(num: Codec, db0: Db, budget0: nat) returns (db: Db, budget: nat, outcome: Outcome)
    requires NonEmpty(db0)
    ensures Follows(num, db0, db)
    ensures outcome.Completed? ==> forall k :: k in db && k.Old() ==> k in db0 && !k.OldBlock?
  {
    db, budget, outcome := db0, budget0, Stopped;
    var ks := Scan(db, (k: Key) => k.OldBlock?);
    var i := 0;
    while i < |ks|
      invariant 0 <= i <= |ks|
      invariant Follows(num, db0, db)
      invariant forall k :: k in db && k.Old() && k !in ks[i..] ==> k in db0 && !k.OldBlock?
      invariant forall k :: k in ks ==> k.OldBlock?
    {
      assert ks[i] in ks && ks[i] in ks[i..];
      var h := ks[i].hash;
      ghost var before := db;
      var r, ok;
      db, budget, r := ConvertBlock(num, db, h, budget);
      FollowsOn(num, db0, before, db);
      if !r.Completed? { outcome := r; return; }
      before := db;
      db, i, budget, ok := DeleteBlock(num, db, ks, i, h, budget);
      FollowsOn(num, db0, before, db);
      if !ok { return; }
    }
    outcome := Completed;
  }

  /** The third phase: receipts of blocks that are not there. */
  method DeleteReceipts(ghost num: Codec, db0: Db, budget0: nat) returns (db: Db, budget: nat, ok: bool)
    requires NonEmpty(db0) && forall k :: k in db0 ==> !k.OldBlock?
    ensures Follows(num, db0, db)
    ensures ok ==> forall k :: k in db && k.Old() ==> k in db0 && !k.OldReceipts?
  {
    db, budget := db0, budget0;
    var ks := Scan(db, (k: Key) => k.OldReceipts?);
    for i := 0 to |ks|
      invariant Follows(num, db0, db)
      invariant forall k :: k in db && k !in ks[i..] ==> k in db0 && !k.OldReceipts?
      invariant forall k :: k in ks ==> k.OldReceipts?
      invariant forall k :: k in db ==> k in db0
    {
      assert ks[i] in ks && ks[i..] == [ks[i]] + ks[i + 1..];
      assert OldNumber(num, db, ks[i].hash) == Missing;
      ghost var before := db;
      db, budget, ok := Delete(num, db, ks[i], budget);
      FollowsOn(num, db0, before, db);
      if !ok { return; }
    }
    ok := true;
  }

  /** Neither converted before nor empty. */
  predicate Due(db: Db) {
    var flag := Get(db, Done);
    !(|flag| > 0 && flag[0] == 42) && Get(db, LastHeader) != []
  }

  /** `b` is exactly what the migration makes of `a`. */
  ghost predicate Migrated(num: Codec, a: Db, b: Db) {
    forall k :: Get(b, k) == Target(num, a, k)
  }

  lemma NoOldIsMigrated(num: Codec, db: Db)
    requires Get(db, Done) == [42] && forall k :: k in db ==> !k.Old()
    ensures Migrated(num, db, db)
  {
  }

  /** One start of the node: all three phases, as far as the process lives, and the completion flag. */
  method Upgrade(num: Codec, db0: Db, budget0: nat) returns (db: Db, done: bool)
    requires NonEmpty(db0)
    ensures NonEmpty(db) && Same(num, db0, db) && (Coherent(num, db0) ==> Coherent(num, db))
    ensures Due(db0) && done ==> Migrated(num, db0, db)
    ensures Due(db0) && !done ==> Due(db)
  {
    db, done := db0, false;
    var flag := Get(db, Done);
    if |flag| > 0 && flag[0] == 42 { done := true; return; }
    if Get(db, LastHeader) == [] {
      if budget0 > 0 {
        db, done := Finish(num, db), true;
      }
      return;
    }
    var budget, ok, outcome;
    db, budget, ok := ConvertNumbers(num, db, budget0);
    SameFlags(num, db0, db);
    if !ok { return; }
    ghost var db1 := db;
    db, budget, outcome := ConvertBlocks(num, db, budget);
    FollowsOn(num, db0, db1, db);
    SameFlags(num, db0, db);
    if !outcome.Completed? { return; }
    ghost var db2 := db;
    assert forall k :: k in db && k.Old() ==> k.OldReceipts?;
    db, budget, ok := DeleteReceipts(num, db, budget);
    FollowsOn(num, db0, db2, db);
    SameFlags(num, db0, db);
    if !ok || budget == 0 { return; }
    db, done := Finish(num, db), true;
  }

  function Finish(ghost num: Codec, db: Db): (db': Db)
    requires NonEmpty(db)
    ensures NonEmpty(db') && Same(num, db, db') && (Coherent(num, db) ==> Coherent(num, db'))
    ensures (forall k :: k in db ==> !k.Old()) ==> Migrated(num, db, db')
  {
    PutWrote(db, Done, [42]);
    PutSame(num, db, db[Done := [42]], Done);
    assert Coherent(num, db) ==> Coherent(num, db[Done := [42]]) by {
      if Coherent(num, db) { PutCoherent(num, db, db[Done := [42]], Done); }
    }
    assert (forall k :: k in db ==> !k.Old()) ==> Migrated(num, db[Done := [42]], db[Done := [42]]) by {
      if forall k :: k in db ==> !k.Old() { NoOldIsMigrated(num, db[Done := [42]]); }
    }
    db[Done := [42]]
  }

  lemma SameFlags(num: Codec, a: Db, b: Db)
    requires Follows(num, a, b)
    ensures Due(a) <==> Due(b)
  {
    assert Target(num, b, LastHeader) == Target(num, a, LastHeader);
  }

  /** A run of starts, each of which may die at any of its writes: reads never change, and once a
      start completes, the database is what an uninterrupted migration would have made of it. */
  method Restarts(num: Codec, db0: Db, budgets: seq<nat>) returns (db: Db, done: bool)
    requires NonEmpty(db0)
    ensures Coherent(num, db0) ==> SameReads(num, db0, db)
    ensures Due(db0) && done ==> Migrated(num, db0, db)
  {
    db, done := db0, false;
    for i := 0 to |budgets|
      invariant NonEmpty(db) && Same(num, db0, db) && (Coherent(num, db0) ==> Coherent(num, db))
      invariant Due(db0) && !done ==> Due(db)
      invariant Due(db0) && done ==> Migrated(num, db0, db)
    {
      if done { break; }
      ghost var before := db;
      db, done := Upgrade(num, db, budgets[i]);
    }
    if Coherent(num, db0) { CoherentReads(num, db0, db); }
  }

  class Database {
    var data: Db

    /** The migration at a start of the node. If the two formats agree, a reader sees the same before and
        after, however far the migration came; if it came to its end, only if they agreed. */
    method UpgradeSequentialKeys(num: Codec, budget: nat) returns (done: bool)
      requires NonEmpty(data)
      modifies this
      ensures NonEmpty(data) && Same(num, old(data), data)
      ensures Coherent(num, old(data)) ==> Coherent(num, data) && SameReads(num, old(data), data)
      ensures Due(old(data)) && done && Decodable(num, old(data)) ==> (SameReads(num, old(data), data) <==> Coherent(num, old(data)))
      ensures Due(old(data)) && done ==> Migrated(num, old(data), data)
      ensures Due(old(data)) && !done ==> Due(data)
    {
      var db;
      db, done := Upgrade(num, data, budget);
      if Coherent(num, data) { CoherentReads(num, data, db); }
      if Due(data) && done && Decodable(num, data) { ReadsSurvive(num, data, db); }
      data := db;
    }
  }

  // Exactly when the reads survive

  ghost predicate Decodable(num: Codec, db: Db) {
    forall h: nat :: OldNumber(num, db, h) != Undecodable
  }

  /** The migration keeps every read if and only if the two formats agreed at the start. */
  lemma ReadsSurvive(num: Codec, db: Db, db': Db)
    requires Decodable(num, db) && Migrated(num, db, db')
    ensures SameReads(num, db, db') <==> Coherent(num, db)
  {
    MigratedSame(num, db, db');
    if Coherent(num, db) { CoherentReads(num, db, db'); }
    if SameReads(num, db, db') {
      forall n: nat | n < TWO63
        ensures Agree(db, OldNum(n), NewCanon(n))
      {
        assert ReadCanonical(db', n) == ReadCanonical(db, n);
      }
      forall h: nat
        ensures CoherentBlock(num, db, h)
      {
        BlockSurvives(num, db, db', h);
      }
    }
  }

  lemma MigratedSame(num: Codec, db: Db, db': Db)
    requires Decodable(num, db) && Migrated(num, db, db')
    ensures Same(num, db, db') && Coherent(num, db')
    ensures forall k: Key :: k.Old() ==> Get(db', k) == []
  {
    forall k: Key | k.Old()
      ensures Get(db', k) == []
    {
      if !k.OldNum? { assert OldNumber(num, db, k.hash) != Undecodable; }
    }
  }

  lemma BlockSurvives(num: Codec, db: Db, db': Db, h: nat)
    requires OldNumber(num, db, h) != Undecodable && Migrated(num, db, db')
    requires forall n: nat :: Stored(num, db, n, h) ==> SameBlock(num, db, db', n, h)
    ensures CoherentBlock(num, db, h)
  {
    match OldNumber(num, db, h)
    case Number(n) =>
      var m := ReadNumber(num, db, h).n;
      assert Stored(num, db, m, h);
      assert Get(db', NewNumber(h)) == NumberBytes(n);
      assert m == n;
      forall p
        ensures Agree(db, OldBlock(h, p), NewBlock(n, h, p))
      {
        assert ReadPart(db', n, h, p) == ReadPart(db, n, h, p);
      }
    case Missing =>
      forall n: nat, p | Stored(num, db, n, h)
        ensures Get(db, OldBlock(h, p)) != [] ==> Get(db, NewBlock(n, h, p)) != []
        ensures Get(db, OldReceipts(h)) != [] ==> Get(db, NewReceipts(n, h)) != []
      {
        assert ReadPart(db', n, h, p) == ReadPart(db, n, h, p);
        assert Get(db', OldBlock(h, p)) == [] && Get(db', OldReceipts(h)) == [];
      }
  }

  /** A number filed in both formats, under a newer hash in the new one: the migration brings the
      older hash back. */
  lemma StaleHashReturns(num: Codec, db': Db)
    requires Migrated(num, map[LastHeader := [9], OldNum(1) := [7], NewCanon(1) := [8]], db')
    ensures var db: Db := map[LastHeader := [9], OldNum(1) := [7], NewCanon(1) := [8]];
            Due(db) && ReadCanonical(db, 1) == [8] && ReadCanonical(db', 1) == [7]
  {
    var db: Db := map[LastHeader := [9], OldNum(1) := [7], NewCanon(1) := [8]];
    assert Get(db', NewCanon(1)) == Target(num, db, NewCanon(1)) == Get(db, OldNum(1));
  }

  /** Numbers of 2^63 and more: the old key they are read under is that of another number, while the
      migration files what is under their own. Their reads survive if and only if both hold the same, or
      a new entry stands before them that the migration does not change. */
  lemma WideNumber(num: Codec, db: Db, db': Db, n: nat)
    requires TWO63 <= n < NUMBERS && Decodable(num, db) && Migrated(num, db, db')
    ensures ReadCanonical(db', n) == ReadCanonical(db, n) <==>
            if Get(db, NewCanon(n)) != [] then Agree(db, OldNum(n), NewCanon(n)) else Get(db, OldNum(n)) == Get(db, OldNum(NUMBERS - n))
  {
    MigratedSame(num, db, db');
  }
}

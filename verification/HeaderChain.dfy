/** The header chain: header and total-difficulty storage behind look-aside caches,
    fork choice by total difficulty, and the number-to-hash index. */
module HeaderChain {
  import opened Chain
  import opened Wrappers

  /** The database tables the header chain reads and writes. The rows of `headers` and
      `tds` are filed under number and hash; a header is always filed under its own
      number, so the tables here are keyed by hash and a lookup compares the number. */
  datatype Db = Db(
    headers: map<Hash, Header>,
    tds: map<Hash, int>,
    numbers: map<Hash, nat>,
    canon: map<nat, Hash>,
    headHash: Hash)
  {
    predicate Has(hash: Hash, number: nat) {
      hash in headers && headers[hash].number == number
    }
  }

  /** Look-aside caches keyed by hash; each may forget any of its entries. */
  datatype Caches = Caches(headers: map<Hash, Header>, tds: map<Hash, int>, numbers: map<Hash, nat>)

  datatype WriteStatus = NonStat | Canon | Side

  datatype WriteError = NoError | UnknownAncestor

  /** Every header from genesis to `h` is in the database. */
  ghost predicate Rooted(headers: Headers, all: Headers, genesis: Hash, h: Hash)
    requires Closed(all, genesis)
  {
    h in all && forall i :: 0 <= i <= all[h].number ==> Ancestry(all, genesis, h)[i] in headers
  }

  /** The tables agree with what the hashes stand for (`all`): a header, its number and
      its total difficulty are stored together, and the stored total difficulty is the
      sum of difficulties back to genesis. */
  ghost predicate TablesOk(db: Db, all: Headers, genesis: Hash) {
    && Closed(all, genesis)
    && db.tds.Keys == db.headers.Keys == db.numbers.Keys
    && (forall h :: h in db.headers ==> h in all && db.headers[h] == all[h])
    && (forall h {:trigger db.tds[h]} :: h in db.tds ==> db.tds[h] == TotalDifficulty(all, genesis, h))
    && (forall h {:trigger db.numbers[h]} :: h in db.numbers ==> db.numbers[h] == all[h].number)
  }

  /** The index maps exactly the numbers 0..|c|-1, each to its member of `c`. */
  ghost predicate IndexIs(canon: map<nat, Hash>, c: seq<Hash>) {
    && (forall i: nat :: i in canon <==> i < |c|)
    && (forall i: nat :: i < |c| ==> canon[i] == c[i])
  }

  /** The database of a header chain whose head is `head`: all of the head's ancestry is
      stored and the index is exactly that ancestry, with nothing above the head. */
  ghost predicate DbOk(db: Db, all: Headers, genesis: Hash, head: Hash) {
    && TablesOk(db, all, genesis)
    && head in all && db.headHash == head
    && Rooted(db.headers, all, genesis, head)
    && IndexIs(db.canon, Ancestry(all, genesis, head))
  }

  /** No stored header has a higher total difficulty than `head`. */
  ghost predicate Heaviest(db: Db, all: Headers, genesis: Hash, head: Hash) {
    && TablesOk(db, all, genesis) && head in all
    && forall h {:trigger db.tds[h]} :: h in db.tds ==> db.tds[h] <= TotalDifficulty(all, genesis, head)
  }

  /** A cache entry may be missing, but what is there is what the table holds. */
  ghost predicate Agrees<K, V>(cache: map<K, V>, table: map<K, V>) {
    forall k :: k in cache ==> k in table && cache[k] == table[k]
  }

  ghost predicate CachesOk(cs: Caches, db: Db) {
    Agrees(cs.headers, db.headers) && Agrees(cs.tds, db.tds) && Agrees(cs.numbers, db.numbers)
  }

  /** Row `i` of a path through the header table: numbered `i`, child of row `i - 1`. */
  ghost predicate Row(headers: Headers, p: seq<Hash>, i: nat)
    requires i < |p|
  {
    p[i] in headers && headers[p[i]].number == i && (i > 0 ==> headers[p[i]].parent == p[i - 1])
  }

  ghost predicate Path(headers: Headers, p: seq<Hash>) {
    forall i: nat {:trigger Row(headers, p, i)} :: i < |p| ==> Row(headers, p, i)
  }

  function StoreHeader(db: Db, header: Header, td: int): Db {
    db.(tds := db.tds[header.hash := td],
        numbers := db.numbers[header.hash := header.number],
        headers := db.headers[header.hash := header])
  }

  function DropHeader(db: Db, h: Hash): Db {
    db.(numbers := db.numbers - {h}, headers := db.headers - {h}, tds := db.tds - {h})
  }

  /** An ancestry is a path through the headers. */
  lemma AncestryIsPath(all: Headers, genesis: Hash, h: Hash)
    requires Closed(all, genesis) && h in all
    ensures Path(all, Ancestry(all, genesis, h))
  {
    var c := Ancestry(all, genesis, h);
    forall i: nat | i < |c|
      ensures Row(all, c, i)
    {
      assert i > 0 ==> Linked(all, c, i);
    }
  }

  /** A stored ancestry is a path through the header table. */
  lemma StoredIsPath(db: Db, all: Headers, genesis: Hash, h: Hash)
    requires TablesOk(db, all, genesis) && Rooted(db.headers, all, genesis, h)
    ensures Path(db.headers, Ancestry(all, genesis, h))
  {
    var c := Ancestry(all, genesis, h);
    AncestryIsPath(all, genesis, h);
    forall i: nat | i < |c|
      ensures Row(db.headers, c, i)
    {
      var x := c[i];
      assert x in db.headers && db.headers[x] == all[x] && Row(all, c, i);
    }
  }

  /** Storing a header above a stored parent leaves the head, its ancestry and the index
      alone; the new header's own ancestry is then stored as well. */
  lemma StoreHeaderOk(db: Db, all: Headers, genesis: Hash, head: Hash, header: Header, td: int)
    requires DbOk(db, all, genesis, head)
    requires header.hash in all && all[header.hash] == header && header.number > 0
    requires header.parent in db.headers && td == header.difficulty + db.tds[header.parent]
    ensures DbOk(StoreHeader(db, header, td), all, genesis, head)
    ensures td == TotalDifficulty(all, genesis, header.hash)
    ensures Rooted(db.headers, all, genesis, header.parent) ==> Rooted(StoreHeader(db, header, td).headers, all, genesis, header.hash)
  {
    assert HasParent(all, header.hash);
    var db' := StoreHeader(db, header, td);
    assert TablesOk(db', all, genesis);
  }

  /** Where an initial part of one ancestry meets another ancestry, splicing the two
      there gives the whole of the other. */
  lemma Splice(all: Headers, genesis: Hash, a: Hash, b: Hash, n: nat)
    requires Closed(all, genesis) && a in all && b in all && n <= all[a].number && n <= all[b].number
    requires Ancestry(all, genesis, a)[n] == Ancestry(all, genesis, b)[n]
    ensures Ancestry(all, genesis, b) == Ancestry(all, genesis, a)[..n + 1] + Ancestry(all, genesis, b)[n + 1..]
  {
    AncestriesMeet(all, genesis, a, b, n);
    SpliceAt(Ancestry(all, genesis, a), Ancestry(all, genesis, b), n);
  }

  lemma SpliceAt(p: seq<Hash>, q: seq<Hash>, n: nat)
    requires n < |p| && n < |q| && p[..n + 1] == q[..n + 1]
    ensures q == p[..n + 1] + q[n + 1..]
  {
    assert q == q[..n + 1] + q[n + 1..];
  }

  /** Deletes the index entries above `number`. */
  method ClearAbove(canon: map<nat, Hash>, number: nat, ghost c: seq<Hash>) returns (r: map<nat, Hash>)
    requires IndexIs(canon, c)
    ensures IndexIs(r, Cut(c, number + 1))
  {
    var i := number + 1;
    r := canon;
    while i in r
      invariant number < i
      invariant forall j: nat :: j in r <==> j < |c| && !(number < j < i)
      invariant forall j: nat :: j in r ==> r[j] == c[j]
      decreases |c| - i
    {
      r := r - {i};
      i := i + 1;
    }
  }

  ghost function Cut(c: seq<Hash>, n: nat): seq<Hash> {
    if |c| <= n then c else c[..n]
  }

  lemma CutIsPrefix(c: seq<Hash>, n: nat)
    ensures |Cut(c, n)| <= |c| && Cut(c, n) == c[..|Cut(c, n)|]
  {
  }

  lemma CutAgrees(c: seq<Hash>, n: nat, m: nat)
    requires m < |Cut(c, n)|
    ensures m < |c| && Cut(c, n)[m] == c[m] && Cut(c, n)[..m + 1] == c[..m + 1]
  {
  }

  /** Adding to a bounded cache may drop any entries. */
  method Evict<K, V>(m: map<K, V>) returns (r: map<K, V>)
    ensures Agrees(r, m)
  {
    var keep: set<K> :| keep <= m.Keys;
    r := map k | k in keep :: m[k];
  }

  /** Caches the rows of a stored hash. */
  method Remember(cs: Caches, db: Db, hash: Hash) returns (cs': Caches)
    requires CachesOk(cs, db) && hash in db.headers && hash in db.tds && hash in db.numbers
    ensures CachesOk(cs', db)
  {
    var headers := Evict(cs.headers[hash := db.headers[hash]]);
    var tds := Evict(cs.tds[hash := db.tds[hash]]);
    var numbers := Evict(cs.numbers[hash := db.numbers[hash]]);
    cs' := Caches(headers, tds, numbers);
  }

  /** Reads a header through the cache. The cache is keyed by hash alone, so a number that
      is not the header's own may or may not find it; with the right number the answer is
      the stored header. */
  method CachedHeader(headers: Headers, cache: Headers, hash: Hash, number: nat, ghost known: Headers) returns (r: Option<Header>, cache': Headers)
    requires Agrees(cache, known) && Agrees(headers, known)
    ensures Agrees(cache', known)
    ensures r.Some? ==> hash in known && r.value == known[hash]
    ensures hash in headers && headers[hash].number == number ==> r.Some?
  {
    if hash in cache { return Some(cache[hash]), cache; }
    if hash !in headers || headers[hash].number != number { return None, cache; }
    r := Some(headers[hash]);
    cache' := Evict(cache[hash := r.value]);
  }

  /** The index is that of `c`, but for the numbers from `m` up to `n`, where it is that of `p`. */
  ghost predicate Torn(canon: map<nat, Hash>, c: seq<Hash>, p: seq<Hash>, m: nat, n: nat)
    requires n <= |p|
  {
    && (forall j: nat :: j in canon <==> j < |c| || m <= j < n)
    && (forall j: nat :: j in canon ==> canon[j] == if m <= j < n then p[j] else c[j])
  }

  lemma TornNext(canon: map<nat, Hash>, c: seq<Hash>, p: seq<Hash>, m: nat, n: nat)
    requires m < n <= |p| && Torn(canon, c, p, m + 1, n)
    ensures Torn(canon[m := p[m]], c, p, m, n)
  {
  }

  lemma TornMeets(canon: map<nat, Hash>, c: seq<Hash>, p: seq<Hash>, m: nat, n: nat)
    requires m < n && |p| == n + 1 && m < |c| <= |p| && Torn(canon, c, p, m + 1, n) && p[m] == c[m]
    ensures IndexIs(canon[n := p[n]], c[..m + 1] + p[m + 1..])
  {
  }

  /** The walk down `p` from number `n` has come to number `k`, and all headers on the way are stored. */
  ghost predicate Walking(r: map<nat, Hash>, headers: Headers, c: seq<Hash>, p: seq<Hash>, n: nat, k: nat) {
    k < n < |p| && Torn(r, c, p, k + 1, n) && forall j: nat :: k < j < n ==> p[j] in headers
  }

  /** What is known of the header at number `k` of `p`: itself if it is stored, and nothing else. */
  ghost predicate Looked(headers: Headers, p: seq<Hash>, k: nat, hash: Hash, header: Option<Header>) {
    k < |p| && hash == p[k] && header == if hash in headers then Some(headers[hash]) else None
  }

  /** Looks up the header at number `k` of `p`. */
  method LookUp(headers: Headers, cache: Headers, hash: Hash, k: nat, ghost all: Headers, ghost p: seq<Hash>) returns (header: Option<Header>, cache': Headers)
    requires Agrees(cache, headers) && Agrees(headers, all) && Path(all, p) && k < |p| && hash == p[k]
    ensures Agrees(cache', headers) && Looked(headers, p, k, hash, header)
  {
    assert Row(all, p, k);
    header, cache' := CachedHeader(headers, cache, hash, k, headers);
  }

  /** Rewrites the stale index entries below the new head, walking back until the
      index already agrees; it also returns the number where it stopped. A header that is
      missing on the way is dereferenced all the same: then `crashed` is set. */
  method RewriteBelow(canon: map<nat, Hash>, headers: Headers, cache: Headers, header: Header, ghost all: Headers, ghost c: seq<Hash>, ghost p: seq<Hash>)
    returns (r: map<nat, Hash>, cache': Headers, crashed: bool, ghost meet: nat)
    requires Agrees(cache, headers) && Agrees(headers, all) && header.parent in headers
    requires |p| == header.number + 1 && header.number > 0 && Path(all, p)
    requires p[header.number] in all && header == all[p[header.number]]
    requires 0 < |c| <= |p| && c[0] == p[0] && IndexIs(canon, c) && (forall i :: 0 <= i < |c| ==> c[i] in headers)
    ensures Agrees(cache', headers)
    ensures meet < header.number && forall j: nat :: meet < j < header.number ==> p[j] in headers
    ensures !crashed ==> meet < |c| && p[meet] == c[meet] && IndexIs(r[header.number := p[header.number]], c[..meet + 1] + p[meet + 1..])
    ensures crashed ==> p[meet] !in headers && Torn(r, c, p, meet, header.number)
  {
    assert Row(all, p, header.number);
    var headHash, headNumber: nat := header.parent, header.number - 1;
    var headHeader;
    headHeader, cache' := LookUp(headers, cache, headHash, headNumber, all, p);
    r, crashed := canon, false;
    while headNumber !in r || r[headNumber] != headHash
      invariant Agrees(cache', headers) && Looked(headers, p, headNumber, headHash, headHeader)
      invariant Walking(r, headers, c, p, header.number, headNumber)
      decreases headNumber
    {
      assert headNumber > 0 by { assert 0 in r && r[0] == c[0]; }
      TornNext(r, c, p, headNumber, header.number);
      r := r[headNumber := headHash];
      if headHeader.None? { return r, cache', true, headNumber; }
      assert Row(all, p, headNumber) && headHeader.value == all[headHash];
      headHash := headHeader.value.parent;
      headNumber := headHeader.value.number - 1;
      headHeader, cache' := LookUp(headers, cache', headHash, headNumber, all, p);
    }
    meet := headNumber;
    TornMeets(r, c, p, meet, header.number);
  }

  /** The walk down `p` met the index of a chain that is stored: then all of `p` is. */
  lemma RootedWhereMet(headers: Headers, all: Headers, genesis: Hash, head: Hash, h: Hash, meet: nat)
    requires Closed(all, genesis) && h in all && head in all && Rooted(headers, all, genesis, head)
    requires meet <= all[head].number && meet <= all[h].number
    requires Ancestry(all, genesis, h)[meet] == Ancestry(all, genesis, head)[meet]
    requires forall j: nat :: meet < j <= all[h].number ==> Ancestry(all, genesis, h)[j] in headers
    ensures Rooted(headers, all, genesis, h)
  {
    forall i | 0 <= i <= meet
      ensures Ancestry(all, genesis, h)[i] in headers
    {
      AgreeBelow(all, genesis, h, head, meet, i);
    }
  }

  /** What is left when the walk back from `header` finds that an ancestor is missing: the index
      names the missing header and those above it, the head has not moved. */
  ghost predicate CrashedAt(db: Db, db': Db, header: Header, all: Headers, genesis: Hash, head: Hash, m: nat)
    requires Closed(all, genesis) && header.hash in all && head in all && all[header.hash] == header
  {
    var c, p := Ancestry(all, genesis, head), Ancestry(all, genesis, header.hash);
    && m < header.number && p[m] !in db.headers && (forall j: nat :: m < j < header.number ==> p[j] in db.headers)
    && db' == db.(canon := db'.canon) && Torn(db'.canon, Cut(c, header.number + 1), p, m, header.number)
  }

  ghost predicate Crashed(db: Db, db': Db, header: Header, all: Headers, genesis: Hash, head: Hash)
    requires Closed(all, genesis) && header.hash in all && head in all && all[header.hash] == header
  {
    exists m: nat :: CrashedAt(db, db', header, all, genesis, head, m)
  }

  /** Moves the head to `header`, which is already stored. The walk back from it meets a missing
      header exactly if its ancestry is not all stored. */
  method MakeHead(db: Db, cache: Headers, header: Header, ghost all: Headers, ghost genesis: Hash, ghost head: Hash)
    returns (db': Db, cache': Headers, crashed: bool)
    requires DbOk(db, all, genesis, head) && Agrees(cache, db.headers)
    requires header.hash in db.headers && db.headers[header.hash] == header && header.number > 0 && header.parent in db.headers
    ensures Agrees(cache', db.headers)
    ensures crashed <==> !Rooted(db.headers, all, genesis, header.hash)
    ensures !crashed ==> db' == db.(canon := db'.canon, headHash := header.hash) && IndexIs(db'.canon, Ancestry(all, genesis, header.hash))
    ensures crashed ==> Crashed(db, db', header, all, genesis, head)
  {
    ghost var c, p := Ancestry(all, genesis, head), Ancestry(all, genesis, header.hash);
    AncestryIsPath(all, genesis, header.hash);
    var canon;
    ghost var meet;
    canon, cache', crashed, meet := Redirect(db.canon, db.headers, cache, header, all, c, p);
    if crashed {
      db' := db.(canon := canon);
      assert CrashedAt(db, db', header, all, genesis, head, meet);
    } else {
      RootedWhereMet(db.headers, all, genesis, head, header.hash, meet);
      Splice(all, genesis, head, header.hash, meet);
      db' := db.(canon := canon[header.number := header.hash], headHash := header.hash);
    }
  }

  /** Turns the index of `c` into that of `p`, but for the entry of `header` itself. */
  method Redirect(canon: map<nat, Hash>, headers: Headers, cache: Headers, header: Header, ghost all: Headers, ghost c: seq<Hash>, ghost p: seq<Hash>)
    returns (r: map<nat, Hash>, cache': Headers, crashed: bool, ghost meet: nat)
    requires Agrees(cache, headers) && Agrees(headers, all) && header.parent in headers
    requires |p| == header.number + 1 && header.number > 0 && Path(all, p)
    requires p[header.number] in all && header == all[p[header.number]]
    requires 0 < |c| && c[0] == p[0] && IndexIs(canon, c) && (forall i :: 0 <= i < |c| ==> c[i] in headers)
    ensures Agrees(cache', headers)
    ensures meet < header.number && forall j: nat :: meet < j < header.number ==> p[j] in headers
    ensures !crashed ==> meet < |c| && p[meet] == c[meet] && IndexIs(r[header.number := p[header.number]], c[..meet + 1] + p[meet + 1..])
    ensures crashed ==> p[meet] !in headers && Torn(r, Cut(c, header.number + 1), p, meet, header.number)
  {
    r := ClearAbove(canon, header.number, c);
    CutIsPrefix(c, header.number + 1);
    r, cache', crashed, meet := RewriteBelow(r, headers, cache, header, all, Cut(c, header.number + 1), p);
    if !crashed { CutAgrees(c, header.number + 1, meet); }
  }

  /** Whether `header` becomes the head: it is heavier, or wins the coin toss on a tie. */
  ghost predicate Wins(all: Headers, genesis: Hash, header: Hash, current: Hash, coin: bool)
    requires Closed(all, genesis) && header in all && current in all
  {
    var td, cur := TotalDifficulty(all, genesis, header), TotalDifficulty(all, genesis, current);
    td > cur || (td == cur && coin)
  }

  /** The database part of writing a header: store it, then make it the head if it is
      heavier than the current one or wins the coin toss on a tie. */
  method StoreAndChoose(db: Db, cache: Headers, header: Header, current: Header, externTd: int, localTd: int, coin: bool,
                        ghost all: Headers, ghost genesis: Hash)
    returns (db': Db, cache': Headers, status: WriteStatus, crashed: bool)
    requires DbOk(db, all, genesis, current.hash) && Agrees(cache, db.headers)
    requires header.hash in all && all[header.hash] == header && header.number > 0 && header.parent in db.headers
    requires externTd == header.difficulty + TotalDifficulty(all, genesis, header.parent)
    requires localTd == TotalDifficulty(all, genesis, current.hash)
    ensures externTd == TotalDifficulty(all, genesis, header.hash)
    ensures status == if Wins(all, genesis, header.hash, current.hash, coin) then Canon else Side
    ensures crashed <==> status == Canon && !Rooted(db.headers, all, genesis, header.parent)
    ensures !crashed ==> DbOk(db', all, genesis, if status == Canon then header.hash else current.hash)
    ensures db'.(canon := db.canon, headHash := db.headHash) == StoreHeader(db, header, externTd)
    ensures status == Side ==> db'.canon == db.canon
    ensures Agrees(cache', db'.headers)
    ensures Heaviest(db, all, genesis, current.hash) && !crashed ==>
              Heaviest(db', all, genesis, if status == Canon then header.hash else current.hash)
    ensures crashed ==> Crashed(StoreHeader(db, header, externTd), db', header, all, genesis, current.hash)
  {
    StoreHeaderOk(db, all, genesis, current.hash, header, externTd);
    db', cache', crashed := StoreHeader(db, header, externTd), cache, false;
    RootedStep(db.headers, db'.headers, all, genesis, header);
    assert Agrees(cache', db'.headers);
    if externTd > localTd || (externTd == localTd && coin) {
      db', cache', crashed := MakeHead(db', cache', header, all, genesis, current.hash);
      status := Canon;
    } else {
      status := Side;
    }
  }

  /** A header that is stored is rooted exactly if its parent was, whether it is new or not. */
  lemma RootedStep(headers: Headers, headers': Headers, all: Headers, genesis: Hash, header: Header)
    requires Closed(all, genesis) && header.hash in all && all[header.hash] == header && header.number > 0
    requires headers' == headers[header.hash := header] || (headers' == headers && header.hash in headers)
    ensures header.parent in all
    ensures Rooted(headers', all, genesis, header.hash) <==> Rooted(headers, all, genesis, header.parent)
  {
    assert HasParent(all, header.hash);
    var p, q := Ancestry(all, genesis, header.hash), Ancestry(all, genesis, header.parent);
    assert p == q + [header.hash];
    forall i | 0 <= i < |q|
      ensures p[i] in headers' <==> q[i] in headers
    {
      assert p[i] == q[i] && all[q[i]].number == i;
    }
  }

  /** Reads a total difficulty through its cache, which ignores the number in the same way. */
  method CachedTd(db: Db, cache: map<Hash, int>, hash: Hash, number: nat) returns (r: Option<int>, cache': map<Hash, int>)
    requires Agrees(cache, db.tds) && db.tds.Keys == db.headers.Keys
    ensures Agrees(cache', db.tds)
    ensures r.Some? ==> hash in db.tds && r.value == db.tds[hash]
    ensures db.Has(hash, number) ==> r.Some?
  {
    if hash in cache { return Some(cache[hash]), cache; }
    if !db.Has(hash, number) { return None, cache; }
    r := Some(db.tds[hash]);
    cache' := Evict(cache[hash := r.value]);
  }

  /** Writing a header, as a step on the database and the caches: see `HeaderChain.WriteHeader`. */
  method Write(db: Db, cs: Caches, current: Header, header: Header, coin: bool, ghost all: Headers, ghost genesis: Hash)
    returns (db': Db, cs': Caches, status: WriteStatus, crashed: bool)
    requires DbOk(db, all, genesis, current.hash) && all[current.hash] == current && CachesOk(cs, db)
    requires header.parent in db.headers ==> header.hash in all && all[header.hash] == header && header.number > 0
    ensures status == NonStat <==> header.parent !in db.headers
    ensures status == NonStat ==> db' == db
    ensures status != NonStat ==>
              && header.hash in all && db'.headers == db.headers[header.hash := header]
              && status == if Wins(all, genesis, header.hash, current.hash, coin) then Canon else Side
    ensures crashed <==> status == Canon && !Rooted(db.headers, all, genesis, header.parent)
    ensures !crashed ==> CachesOk(cs', db') && DbOk(db', all, genesis, if status == Canon then header.hash else current.hash)
    ensures status == Side ==> db'.canon == db.canon
    ensures Heaviest(db, all, genesis, current.hash) && !crashed ==>
              Heaviest(db', all, genesis, if status == Canon then header.hash else current.hash)
    ensures crashed ==> Crashed(StoreHeader(db, header, TotalDifficulty(all, genesis, header.hash)), db', header, all, genesis, current.hash)
  {
    assert header.parent in db.headers ==> HasParent(all, header.hash);
    assert current.hash in db.headers by { assert Ancestry(all, genesis, current.hash)[current.number] == current.hash; }
    // number - 1 wraps round for number 0
    var ptd, tds := CachedTd(db, cs.tds, header.parent, if header.number == 0 then 0xffff_ffff_ffff_ffff else header.number - 1);
    if ptd.None? {
      return db, cs.(tds := tds), NonStat, false;
    }
    var localTd;
    localTd, tds := CachedTd(db, tds, current.hash, current.number);
    var externTd, headers := header.difficulty + ptd.value, cs.headers;
    db', headers, status, crashed := StoreAndChoose(db, headers, header, current, externTd, localTd.value, coin, all, genesis);
    if crashed { return db', cs, status, true; }
    assert CachesOk(Caches(headers, tds, cs.numbers), db');
    cs' := Remember(Caches(headers, tds, cs.numbers), db', header.hash);
  }

  /** The members of `c` numbered `n` and above. */
  ghost function From(c: seq<Hash>, n: nat): set<Hash> {
    set i | n <= i < |c| :: c[i]
  }

  /** `db'` has exactly the rows of `db` that do not belong to `gone`. */
  ghost predicate Dropped(db: Db, db': Db, gone: set<Hash>) {
    db'.headers == db.headers - gone && db'.tds == db.tds - gone && db'.numbers == db.numbers - gone
  }

  lemma DropOne(db: Db, db': Db, p: seq<Hash>, n: nat)
    requires n < |p| && Dropped(db, db', From(p, n + 1))
    ensures Dropped(db, DropHeader(db', p[n]), From(p, n))
  {
    assert From(p, n) == From(p, n + 1) + {p[n]};
  }

  lemma PathDistinct(headers: Headers, p: seq<Hash>, n: nat)
    requires Path(headers, p) && n < |p|
    ensures p[n] !in From(p, n + 1)
  {
    forall i: nat | n < i < |p|
      ensures p[i] != p[n]
    {
      assert Row(headers, p, i) && Row(headers, p, n);
    }
  }

  /** Deletes one header and looks up its parent. */
  method DropTop(db: Db, cache: Headers, top: Header, ghost db0: Db, ghost p: seq<Hash>) returns (db': Db, cache': Headers, parent: Header)
    requires 0 < top.number < |p| && Path(db0.headers, p) && p[top.number] in db0.headers && top == db0.headers[p[top.number]] && top.hash == p[top.number]
    requires Dropped(db0, db, From(p, top.number + 1)) && Agrees(cache, db0.headers)
    ensures Dropped(db0, db', From(p, top.number)) && db'.canon == db.canon && Agrees(cache', db0.headers)
    ensures p[top.number - 1] in db0.headers && parent == db0.headers[p[top.number - 1]] && parent.number == top.number - 1
  {
    assert Row(db0.headers, p, top.number) && Row(db0.headers, p, top.number - 1);
    DropOne(db0, db, p, top.number);
    PathDistinct(db0.headers, p, top.number - 1);
    db' := DropHeader(db, top.hash);
    var next;
    next, cache' := CachedHeader(db'.headers, cache, top.parent, top.number - 1, db0.headers);
    parent := next.value;
  }

  /** Deletes the headers above `head` one by one, following parents down from the current header. */
  method DropAbove(db: Db, cache: Headers, current: Header, head: nat, ghost p: seq<Hash>) returns (db': Db, current': Header)
    requires |p| == current.number + 1 && Path(db.headers, p) && p[current.number] in db.headers && current == db.headers[p[current.number]]
    requires Agrees(cache, db.headers) && db.tds.Keys == db.headers.Keys == db.numbers.Keys
    requires forall h :: h in db.headers ==> db.headers[h].hash == h
    ensures |Cut(p, head + 1)| == current'.number + 1 && p[current'.number] in db.headers && current' == db.headers[p[current'.number]]
    ensures Dropped(db, db', From(p, current'.number + 1)) && db'.canon == db.canon
  {
    var cached := cache;
    db', current' := db, current;
    while current'.number > head
      invariant current'.number <= current.number && (head <= current'.number || current' == current)
      invariant p[current'.number] in db.headers && current' == db.headers[p[current'.number]]
      invariant Dropped(db, db', From(p, current'.number + 1)) && db'.canon == db.canon && Agrees(cached, db.headers)
      decreases current'.number
    {
      db', cached, current' := DropTop(db', cached, current', db, p);
    }
  }

  /** Deletes the index entries from the old height down to just above `head`. */
  method TruncateIndex(canon: map<nat, Hash>, height: nat, head: nat, ghost p: seq<Hash>) returns (r: map<nat, Hash>)
    requires IndexIs(canon, p) && |p| == height + 1
    ensures IndexIs(r, Cut(p, head + 1))
  {
    var i := height;
    r := canon;
    while i > head
      invariant i <= height && (head <= i || i == height)
      invariant forall j: nat :: j in r <==> j <= i
      invariant forall j: nat :: j in r ==> r[j] == p[j]
    {
      r := r - {i};
      i := i - 1;
    }
  }

  /** Rewinding as a step on the database: see `HeaderChain.SetHead`. */
  method Rewind(db: Db, cache: Headers, current: Header, head: nat, ghost all: Headers, ghost genesis: Hash) returns (db': Db, current': Header)
    requires DbOk(db, all, genesis, current.hash) && all[current.hash] == current && Agrees(cache, db.headers)
    ensures current'.hash in all && all[current'.hash] == current' && DbOk(db', all, genesis, current'.hash)
    ensures Ancestry(all, genesis, current'.hash) == Cut(Ancestry(all, genesis, current.hash), head + 1)
    ensures Dropped(db, db', From(Ancestry(all, genesis, current.hash), current'.number + 1))
  {
    ghost var p := Ancestry(all, genesis, current.hash);
    StoredIsPath(db, all, genesis, current.hash);
    db', current' := DropAndCut(db, cache, current, head, p);
    RewoundTo(db, db', all, genesis, current.hash, current');
  }

  /** Deletes headers and index entries above `head`, where `p` is the path up to the current header. */
  method DropAndCut(db: Db, cache: Headers, current: Header, head: nat, ghost p: seq<Hash>) returns (db': Db, current': Header)
    requires |p| == current.number + 1 && Path(db.headers, p) && p[current.number] in db.headers && current == db.headers[p[current.number]]
    requires Agrees(cache, db.headers) && db.tds.Keys == db.headers.Keys == db.numbers.Keys && IndexIs(db.canon, p)
    requires forall h :: h in db.headers ==> db.headers[h].hash == h
    ensures current'.number < |p| && p[current'.number] in db.headers && current' == db.headers[p[current'.number]]
    ensures Cut(p, head + 1) == p[..current'.number + 1] && IndexIs(db'.canon, p[..current'.number + 1])
    ensures Dropped(db, db', From(p, current'.number + 1)) && db'.headHash == current'.hash
  {
    db', current' := DropAbove(db, cache, current, head, p);
    var canon := TruncateIndex(db'.canon, current.number, head, p);
    db' := db'.(canon := canon, headHash := current'.hash);
    CutIsPrefix(p, head + 1);
  }

  lemma RewoundTo(db: Db, db': Db, all: Headers, genesis: Hash, h: Hash, current': Header)
    requires TablesOk(db, all, genesis) && Rooted(db.headers, all, genesis, h) && current'.number <= all[h].number
    requires Ancestry(all, genesis, h)[current'.number] in db.headers && current' == db.headers[Ancestry(all, genesis, h)[current'.number]]
    requires Dropped(db, db', From(Ancestry(all, genesis, h), current'.number + 1))
    requires db'.headHash == current'.hash && IndexIs(db'.canon, Ancestry(all, genesis, h)[..current'.number + 1])
    ensures current'.hash in all && all[current'.hash] == current' && DbOk(db', all, genesis, current'.hash)
    ensures Ancestry(all, genesis, current'.hash) == Ancestry(all, genesis, h)[..current'.number + 1]
  {
    var p, n := Ancestry(all, genesis, h), current'.number;
    AncestryPrefix(all, genesis, h, n);
    TablesDropped(db, db', From(p, n + 1), all, genesis);
    KeptBelow(db, db', all, genesis, h, n);
    assert forall i :: 0 <= i <= n ==> p[..n + 1][i] == p[i];
  }

  lemma TablesDropped(db: Db, db': Db, gone: set<Hash>, all: Headers, genesis: Hash)
    requires TablesOk(db, all, genesis) && Dropped(db, db', gone)
    ensures TablesOk(db', all, genesis)
  {
  }

  /** What is left of an ancestry is stored. */
  lemma KeptBelow(db: Db, db': Db, all: Headers, genesis: Hash, h: Hash, n: nat)
    requires TablesOk(db, all, genesis) && Rooted(db.headers, all, genesis, h) && n <= all[h].number
    requires Dropped(db, db', From(Ancestry(all, genesis, h), n + 1))
    ensures forall i :: 0 <= i <= n ==> Ancestry(all, genesis, h)[i] in db'.headers
  {
    var p := Ancestry(all, genesis, h);
    forall i | 0 <= i <= n
      ensures p[i] in db'.headers
    {
      var x := p[i];
      assert x in db.headers;
      assert forall j :: n < j < |p| ==> all[p[j]].number == j;
      assert x !in From(p, n + 1);
    }
  }

  /** A run of headers, each the child of the one before. */
  ghost predicate Contiguous(chain: seq<Header>, all: Headers) {
    && (forall i :: 0 <= i < |chain| ==> chain[i].hash in all && all[chain[i].hash] == chain[i] && chain[i].number > 0)
    && (forall i {:trigger IsChild(chain, i)} :: 0 < i < |chain| ==> IsChild(chain, i))
  }

  ghost predicate IsChild(chain: seq<Header>, i: nat)
    requires 0 < i < |chain|
  {
    chain[i].parent == chain[i - 1].hash
  }

  /** Writing `header`, which is new, above an ancestry that is not all stored, and it becomes the head. */
  ghost predicate Fatal(db: Db, all: Headers, genesis: Hash, current: Hash, header: Header, coin: bool)
    requires Closed(all, genesis) && header.hash in all && current in all
  {
    header.hash !in db.headers && Wins(all, genesis, header.hash, current, coin)
  }

  /** A chain in good order: database, caches and current header agree. */
  ghost function Sound(all: Headers, genesis: Hash): (Db, Caches, Header) -> bool {
    (db: Db, cs: Caches, h: Header) => DbOk(db, all, genesis, h.hash) && all[h.hash] == h && CachesOk(cs, db)
  }

  /** Writes a header unless it is already known. */
  method InsertOne(db: Db, cs: Caches, current: Header, header: Header, coin: bool, ghost all: Headers, ghost genesis: Hash)
    returns (db': Db, cs': Caches, current': Header, ok: bool, crashed: bool)
    requires DbOk(db, all, genesis, current.hash) && all[current.hash] == current && CachesOk(cs, db)
    requires header.hash in all && all[header.hash] == header && header.number > 0
    ensures crashed <==> header.parent in db.headers && !Rooted(db.headers, all, genesis, header.parent) &&
                         Fatal(db, all, genesis, current.hash, header, coin)
    ensures ok <==> header.parent in db.headers || header.hash in db.headers
    ensures if ok then db'.headers == db.headers[header.hash := header] else db' == db
    ensures !crashed ==> Sound(all, genesis)(db', cs', current')
    ensures !ok || !Rooted(db.headers, all, genesis, header.parent) ==> current' == current
    ensures ok ==> (Rooted(db'.headers, all, genesis, header.hash) <==> Rooted(db.headers, all, genesis, header.parent))
    ensures Heaviest(db, all, genesis, current.hash) && !crashed ==> Heaviest(db', all, genesis, current'.hash)
  {
    db', cs', current', ok, crashed := db, cs, current, true, false;
    var known, headers := CachedHeader(db.headers, cs.headers, header.hash, header.number, db.headers);
    if known.None? {
      var status;
      db', cs', status, crashed := Write(db, cs.(headers := headers), current, header, coin, all, genesis);
      if status == Canon && !crashed { current' := header; }
      ok := status != NonStat;
    }
    assert ok ==> db'.headers == db.headers[header.hash := header];
    if ok { RootedStep(db.headers, db'.headers, all, genesis, header); }
  }

  /** The first `k` headers of a run are stored, and of those stored since none is higher. */
  ghost predicate Extended(headers: Headers, headers': Headers, chain: seq<Header>, k: nat, all: Headers)
    requires k <= |chain|
  {
    && Agrees(headers, headers')
    && (forall i :: 0 <= i < k ==> chain[i].hash in headers')
    && (forall h :: h in headers' && h !in headers ==> k > 0 && h in all && all[h].number <= chain[k - 1].number)
  }

  lemma ExtendedNext(headers: Headers, headers1: Headers, headers': Headers, chain: seq<Header>, k: nat, all: Headers, genesis: Hash)
    requires k < |chain| && Closed(all, genesis) && Contiguous(chain, all) && Extended(headers, headers1, chain, k, all)
    requires headers' == headers1[chain[k].hash := chain[k]] && Agrees(headers, all)
    ensures Extended(headers, headers', chain, k + 1, all)
    ensures chain[k].hash in headers1 <==> chain[k].hash in headers
  {
    if k > 0 {
      assert IsChild(chain, k);
      assert HasParent(all, chain[k].hash);
    }
  }

  /** A run of headers on a chain in good order, with one coin for each. */
  ghost predicate Started(db: Db, current: Header, chain: seq<Header>, coins: seq<bool>, all: Headers, genesis: Hash) {
    DbOk(db, all, genesis, current.hash) && all[current.hash] == current && |chain| == |coins| > 0 && Contiguous(chain, all)
  }

  /** Where header `k` of a run belongs: above the one before it. */
  ghost function Below(chain: seq<Header>, k: nat): Hash
    requires k <= |chain| && chain != []
  {
    if k == 0 then chain[0].parent else chain[k - 1].hash
  }

  /** How far a run of headers has come, and what it has left behind. */
  ghost predicate Inserted(db: Db, db': Db, cs: Caches, current: Header, current': Header, chain: seq<Header>, coins: seq<bool>, k: nat,
                           all: Headers, genesis: Hash)
    requires Started(db, current, chain, coins, all, genesis)
  {
    && k <= |chain| && Sound(all, genesis)(db', cs, current')
    && Extended(db.headers, db'.headers, chain, k, all) && (k == 0 ==> db' == db && current' == current)
    && (Rooted(db'.headers, all, genesis, Below(chain, k)) <==> Rooted(db.headers, all, genesis, chain[0].parent))
    && (!Rooted(db.headers, all, genesis, chain[0].parent) ==>
          current' == current && forall i :: 0 <= i < k ==> !Fatal(db, all, genesis, current.hash, chain[i], coins[i]))
    && (Heaviest(db, all, genesis, current.hash) ==> Heaviest(db', all, genesis, current'.hash))
  }

  /** `Inserted` for one run, as a function of where it has come. */
  ghost function Progress(db: Db, current: Header, chain: seq<Header>, coins: seq<bool>, all: Headers, genesis: Hash): (Db, Caches, Header, nat) -> bool
    requires Started(db, current, chain, coins, all, genesis)
  {
    (db': Db, cs: Caches, current': Header, k: nat) => Inserted(db, db', cs, current, current', chain, coins, k, all, genesis)
  }

  /** Header `k` of a run that starts above an ancestry that is not all stored would be the head, and is
      the first to be so. */
  ghost predicate CrashesAt(db: Db, current: Header, chain: seq<Header>, coins: seq<bool>, k: nat, all: Headers, genesis: Hash)
    requires Started(db, current, chain, coins, all, genesis)
  {
    && k < |chain| && !Rooted(db.headers, all, genesis, chain[0].parent) && Fatal(db, all, genesis, current.hash, chain[k], coins[k])
    && forall i :: 0 <= i < k ==> !Fatal(db, all, genesis, current.hash, chain[i], coins[i])
  }

  /** Inserting a run of headers as a step on the database: see `HeaderChain.InsertHeaderChain`. */
  method InsertAll(db: Db, cs: Caches, current: Header, chain: seq<Header>, interrupts: seq<bool>, coins: seq<bool>,
                   ghost all: Headers, ghost genesis: Hash)
    returns (db': Db, cs': Caches, current': Header, failed: nat, ok: bool, crashed: bool)
    requires Started(db, current, chain, coins, all, genesis) && CachesOk(cs, db) && |interrupts| == |chain|
    ensures failed <= |chain| && (ok <==> failed == |chain|)
    ensures if crashed then CrashesAt(db, current, chain, coins, failed, all, genesis)
            else Progress(db, current, chain, coins, all, genesis)(db', cs', current', failed)
    ensures !crashed && !ok ==> interrupts[failed] || (failed == 0 && chain[0].parent !in db.headers && chain[0].hash !in db.headers)
  {
    db', cs', current', failed, ok, crashed := db, cs, current, 0, true, false;
    NothingInserted(db, cs, current, chain, coins, all, genesis);
    while failed < |chain| && !interrupts[failed]
      invariant failed <= |chain| && Progress(db, current, chain, coins, all, genesis)(db', cs', current', failed)
      decreases |chain| - failed
    {
      db', cs', current', failed, ok, crashed := InsertNext(db, db', cs', current, current', chain, coins, failed, all, genesis);
      if !ok || crashed { ok := false; return; }
    }
    ok, crashed := failed == |chain|, false;
  }

  lemma NothingInserted(db: Db, cs: Caches, current: Header, chain: seq<Header>, coins: seq<bool>, all: Headers, genesis: Hash)
    requires Started(db, current, chain, coins, all, genesis) && CachesOk(cs, db)
    ensures Progress(db, current, chain, coins, all, genesis)(db, cs, current, 0)
  {
    assert Sound(all, genesis)(db, cs, current);
  }

  /** One more header of a run has been inserted. */
  lemma InsertedAfter(db: Db, db1: Db, db': Db, cs: Caches, current: Header, current1: Header, current': Header, chain: seq<Header>,
                      coins: seq<bool>, k: nat, all: Headers, genesis: Hash)
    requires Started(db, current, chain, coins, all, genesis) && k < |chain|
    requires Sound(all, genesis)(db', cs, current') && Extended(db.headers, db'.headers, chain, k + 1, all)
    requires Rooted(db1.headers, all, genesis, chain[k].parent) <==> Rooted(db.headers, all, genesis, chain[0].parent)
    requires Rooted(db'.headers, all, genesis, chain[k].hash) <==> Rooted(db1.headers, all, genesis, chain[k].parent)
    requires !Rooted(db1.headers, all, genesis, chain[k].parent) ==>
               current' == current1 == current && forall i :: 0 <= i <= k ==> !Fatal(db, all, genesis, current.hash, chain[i], coins[i])
    requires Heaviest(db, all, genesis, current.hash) ==> Heaviest(db', all, genesis, current'.hash)
    ensures Progress(db, current, chain, coins, all, genesis)(db', cs, current', k + 1)
  {
  }

  /** Writes the next header of a run, unless it is already known. Only the first can lack its parent. */
  method InsertNext(ghost db: Db, db1: Db, cs: Caches, ghost current: Header, current1: Header, chain: seq<Header>, coins: seq<bool>, k: nat,
                    ghost all: Headers, ghost genesis: Hash)
    returns (db': Db, cs': Caches, current': Header, k': nat, ok: bool, crashed: bool)
    requires Started(db, current, chain, coins, all, genesis)
    requires k < |chain| && Progress(db, current, chain, coins, all, genesis)(db1, cs, current1, k)
    ensures k' == if ok && !crashed then k + 1 else k
    ensures if crashed then CrashesAt(db, current, chain, coins, k', all, genesis)
            else Progress(db, current, chain, coins, all, genesis)(db', cs', current', k')
    ensures !crashed && !ok ==> k == 0 && chain[0].parent !in db.headers && chain[0].hash !in db.headers
  {
    assert k > 0 ==> IsChild(chain, k);
    assert chain[k].parent == Below(chain, k);
    ExtendedNext(db.headers, db1.headers, db1.headers[chain[k].hash := chain[k]], chain, k, all, genesis);
    db', cs', current', ok, crashed := InsertOne(db1, cs, current1, chain[k], coins[k], all, genesis);
    k' := if ok && !crashed then k + 1 else k;
    if ok && !crashed { InsertedAfter(db, db1, db', cs', current, current1, current', chain, coins, k, all, genesis); }
  }

  /** After a rewind to `n` below the head `h`, a header keeps its whole ancestry stored
      exactly when that ancestry does not pass through the lowest deleted header. The
      others stay stored as orphans, and `HeaderChain.WriteHeader` says what becomes of a
      header written above one of them. */
  lemma StillRooted(db: Db, db': Db, all: Headers, genesis: Hash, h: Hash, n: nat, x: Hash)
    requires TablesOk(db, all, genesis) && Rooted(db.headers, all, genesis, h) && n < all[h].number
    requires Dropped(db, db', From(Ancestry(all, genesis, h), n + 1))
    requires Rooted(db.headers, all, genesis, x)
    ensures Rooted(db'.headers, all, genesis, x) <==>
            all[x].number <= n || Ancestry(all, genesis, x)[n + 1] != Ancestry(all, genesis, h)[n + 1]
  {
    var c, q := Ancestry(all, genesis, h), Ancestry(all, genesis, x);
    if all[x].number > n && q[n + 1] == c[n + 1] {
      assert q[n + 1] in From(c, n + 1);
    } else {
      forall i | 0 <= i < |q|
        ensures q[i] in db'.headers
      {
        var y := q[i];
        assert y in db.headers;
        if j: nat :| n + 1 <= j < |c| && c[j] == y {
          assert j == all[y].number == i;
          AgreeBelow(all, genesis, x, h, i, n + 1);
        }
      }
    }
  }

  class HeaderChain {
    var db: Db
    var genesisHeader: Header
    var currentHeader: Header
    var caches: Caches
    ghost const all: Headers   // what hashes stand for: any finite set of headers closed under parents

    /** Holds between calls, whatever calls were made. */
    ghost predicate Valid()
      reads this
    {
      && DbOk(db, all, genesisHeader.hash, currentHeader.hash)
      && all[genesisHeader.hash] == genesisHeader
      && all[currentHeader.hash] == currentHeader
      && CachesOk(caches, db)
    }

    /** A chain that holds only its genesis header. */
    constructor (genesis: Header, ghost all: Headers)
      requires Closed(all, genesis.hash) && all[genesis.hash] == genesis
      ensures Valid() && this.all == all && genesisHeader == currentHeader == genesis
      ensures db.headers == map[genesis.hash := genesis]
      ensures Heaviest(db, all, genesis.hash, currentHeader.hash)
    {
      db := Db(map[genesis.hash := genesis], map[genesis.hash := genesis.difficulty],
               map[genesis.hash := 0], map[0 := genesis.hash], genesis.hash);
      genesisHeader, currentHeader := genesis, genesis;
      caches := Caches(map[], map[], map[]);
      this.all := all;
    }

    method Commit(newDb: Db, newCaches: Caches, header: Header)
      modifies this`db, this`caches, this`currentHeader
      ensures db == newDb && caches == newCaches && currentHeader == header
    {
      db, caches, currentHeader := newDb, newCaches, header;
    }

    method GetBlockNumber(hash: Hash) returns (r: Option<nat>)
      requires Valid()
      modifies this`caches
      ensures Valid()
      ensures r == if hash in db.headers then Some(db.headers[hash].number) else None
    {
      if hash in caches.numbers { return Some(caches.numbers[hash]); }
      if hash !in db.numbers { return None; }
      r := Some(db.numbers[hash]);
      var numbers := Evict(caches.numbers[hash := r.value]);
      caches := caches.(numbers := numbers);
    }

    method GetHeader(hash: Hash, number: nat) returns (r: Option<Header>)
      requires Valid()
      modifies this`caches
      ensures Valid()
      ensures r.Some? ==> hash in db.headers && r.value == db.headers[hash]
      ensures db.Has(hash, number) ==> r.Some?
    {
      var headers;
      r, headers := CachedHeader(db.headers, caches.headers, hash, number, db.headers);
      caches := caches.(headers := headers);
    }

    method GetTd(hash: Hash, number: nat) returns (r: Option<int>)
      requires Valid()
      modifies this`caches
      ensures Valid()
      ensures r.Some? ==> hash in db.headers && r.value == TotalDifficulty(all, genesisHeader.hash, hash)
      ensures db.Has(hash, number) ==> r.Some?
    {
      var tds;
      r, tds := CachedTd(db, caches.tds, hash, number);
      caches := caches.(tds := tds);
    }

    /** Writes `header`. `coin` is the random choice made when the total difficulties tie.
        A header above a stored parent must be numbered one above it, which is what header
        verification checks before the write. `crashed` means that the write dereferenced a
        missing header: exactly if `header` becomes the head and its ancestry is not all
        stored. The header is then stored and the index torn, but the head has not moved. */
    method WriteHeader(header: Header, coin: bool) returns (status: WriteStatus, err: WriteError, crashed: bool)
      requires Valid()
      requires header.parent in db.headers ==> header.hash in all && all[header.hash] == header && header.number > 0
      modifies this`db, this`caches, this`currentHeader
      ensures crashed <==> status == Canon && !Rooted(old(db).headers, all, genesisHeader.hash, header.parent)
      ensures !crashed ==> Valid()
      ensures err == UnknownAncestor <==> header.parent !in old(db).headers
      ensures status == NonStat <==> err == UnknownAncestor
      ensures status == NonStat ==> db == old(db) && currentHeader == old(currentHeader)
      ensures status != NonStat ==> db.headers == old(db).headers[header.hash := header]
      ensures status == Canon && !crashed ==> currentHeader == header
      ensures status == Side ==> currentHeader == old(currentHeader) && db.canon == old(db.canon)
      ensures crashed ==>
                && currentHeader == old(currentHeader)
                && var stored := StoreHeader(old(db), header, TotalDifficulty(all, genesisHeader.hash, header.hash));
                   Crashed(stored, db, header, all, genesisHeader.hash, currentHeader.hash)
      ensures status != NonStat ==>
                var td, cur := TotalDifficulty(all, genesisHeader.hash, header.hash), TotalDifficulty(all, genesisHeader.hash, old(currentHeader.hash));
                status == Canon <==> td > cur || (td == cur && coin)
      ensures old(Heaviest(db, all, genesisHeader.hash, currentHeader.hash)) && !crashed ==>
                Heaviest(db, all, genesisHeader.hash, currentHeader.hash)
    {
      var newDb, newCaches;
      newDb, newCaches, status, crashed := Write(db, caches, currentHeader, header, coin, all, genesisHeader.hash);
      Commit(newDb, newCaches, if status == Canon && !crashed then header else currentHeader);
      err := if status == NonStat then UnknownAncestor else NoError;
    }

    /** Rewinds to `head`: exactly the headers of the current ancestry above it are
        deleted and the index is the truncated ancestry. */
    method SetHead(head: nat)
      requires Valid()
      modifies this`db, this`caches, this`currentHeader
      ensures Valid()
      ensures Ancestry(all, genesisHeader.hash, currentHeader.hash) == Cut(Ancestry(all, genesisHeader.hash, old(currentHeader.hash)), head + 1)
      ensures Dropped(old(db), db, From(Ancestry(all, genesisHeader.hash, old(currentHeader.hash)), currentHeader.number + 1))
    {
      ghost var c := Ancestry(all, genesisHeader.hash, currentHeader.hash);
      var newDb, header := Rewind(db, caches.headers, currentHeader, head, all, genesisHeader.hash);
      ghost var gone := From(c, header.number + 1);
      Commit(newDb, Caches(map[], map[], map[]), header);
      assert From(c, currentHeader.number + 1) == gone;
    }

    /** Writes a contiguous run of headers, skipping those already known. `interrupts` and
        `coins` are the shutdown flag and the tie-breaking choices seen on the way. The run
        crashes exactly if it starts above an ancestry that is not all stored and comes to a
        new header that would be the head. */
    method InsertHeaderChain(chain: seq<Header>, interrupts: seq<bool>, coins: seq<bool>) returns (failed: nat, ok: bool, crashed: bool)
      requires Valid()
      requires |chain| == |interrupts| == |coins| > 0
      requires Contiguous(chain, all)
      modifies this`db, this`caches, this`currentHeader
      ensures !crashed ==> Valid() && Agrees(old(db).headers, db.headers)
      ensures ok ==> failed == 0 && !crashed
      ensures failed < |chain| && (!crashed ==> forall i :: 0 <= i < (if ok then |chain| else failed) ==> chain[i].hash in db.headers)
      ensures !crashed && !ok ==> interrupts[failed] || (failed == 0 && chain[0].parent !in old(db).headers)
      ensures !crashed && old(Heaviest(db, all, genesisHeader.hash, currentHeader.hash)) ==>
                Heaviest(db, all, genesisHeader.hash, currentHeader.hash)
      ensures crashed ==> CrashesAt(old(db), old(currentHeader), chain, coins, failed, all, genesisHeader.hash)
      ensures !crashed && !Rooted(old(db).headers, all, genesisHeader.hash, chain[0].parent) ==>
                && currentHeader == old(currentHeader)
                && forall i :: 0 <= i < (if ok then |chain| else failed) ==>
                     !Fatal(old(db), all, genesisHeader.hash, old(currentHeader).hash, chain[i], coins[i])
    {
      var newDb, newCaches, header;
      newDb, newCaches, header, failed, ok, crashed := InsertAll(db, caches, currentHeader, chain, interrupts, coins, all, genesisHeader.hash);
      Commit(newDb, newCaches, header);
      if ok { failed := 0; }
    }
  }

  // A header above an orphan

  /** Genesis, headers 1 and 2 in a line, header 3 beside 2, and header 4 above 3. */
  ghost function Orphans(): (all: Headers) {
    map[0 := Header(0, -1, 0, 1), 1 := Header(1, 0, 1, 1), 2 := Header(2, 1, 2, 1), 3 := Header(3, 1, 2, 1), 4 := Header(4, 3, 3, 1)]
  }

  ghost predicate HasOrphans(all: Headers) {
    && Closed(all, 0) && 0 in all && 1 in all && 2 in all && 3 in all && 4 in all
    && all[0] == Header(0, -1, 0, 1) && all[1] == Header(1, 0, 1, 1) && all[2] == Header(2, 1, 2, 1)
    && all[3] == Header(3, 1, 2, 1) && all[4] == Header(4, 3, 3, 1)
  }

  lemma OrphansExist()
    ensures HasOrphans(Orphans())
  {
    var all := Orphans();
    assert HasParent(all, 1) && HasParent(all, 2) && HasParent(all, 3) && HasParent(all, 4);
  }

  lemma OrphanAncestries(all: Headers)
    requires HasOrphans(all)
    ensures Ancestry(all, 0, 2) == [0, 1, 2] && Ancestry(all, 0, 3) == [0, 1, 3]
  {
    assert Ancestry(all, 0, 0) == [0];
    assert Ancestry(all, 0, 1) == [0] + [1];
    assert Ancestry(all, 0, 2) == Ancestry(all, 0, 1) + [2] && Ancestry(all, 0, 3) == Ancestry(all, 0, 1) + [3];
  }

  lemma OrphanWeights(all: Headers)
    requires HasOrphans(all)
    ensures TotalDifficulty(all, 0, 0) == 1 && TotalDifficulty(all, 0, 1) == 2 && TotalDifficulty(all, 0, 2) == 3
    ensures TotalDifficulty(all, 0, 3) == 3 && TotalDifficulty(all, 0, 4) == 4
  {
  }

  /** Writes headers 1, 2 and 3 in this order: 1 and 2 become the head, 3 stays beside 2. */
  method ThreeHeaders(ghost all: Headers) returns (chain: HeaderChain)
    requires HasOrphans(all)
    ensures chain.Valid() && chain.all == all && chain.genesisHeader.hash == 0 && chain.currentHeader.hash == 2 && 3 in chain.db.headers
  {
    OrphanWeights(all);
    chain := new HeaderChain(Header(0, -1, 0, 1), all);
    var status, err, crashed;
    status, err, crashed := chain.WriteHeader(Header(1, 0, 1, 1), false);
    status, err, crashed := chain.WriteHeader(Header(2, 1, 2, 1), false);
    status, err, crashed := chain.WriteHeader(Header(3, 1, 2, 1), false);
  }

  lemma OrphanStays(headers: Headers, headers': Headers)
    requires 3 in headers && headers' == headers - From([0, 1, 2], 1)
    ensures 3 in headers' && 1 !in headers'
  {
    var c := [0, 1, 2];
    assert c[1] in From(c, 1) && 3 !in From(c, 1);
  }

  /** Rewinds them to genesis. */
  method RewoundChain(ghost all: Headers) returns (db: Db, cs: Caches, current: Header)
    requires HasOrphans(all)
    ensures Sound(all, 0)(db, cs, current) && current.hash == 0 && 3 in db.headers && 1 !in db.headers
  {
    OrphanAncestries(all);
    var chain := ThreeHeaders(all);
    db, current := Rewind(chain.db, chain.caches.headers, chain.currentHeader, 0, all, 0);
    cs := Caches(map[], map[], map[]);
    OrphanStays(chain.db.headers, db.headers);
  }

  /** After a rewind to genesis header 3 is still stored, but not its parent. The header above it is
      heavier than genesis, and writing it crashes. */
  method WriteAboveOrphan(ghost all: Headers) returns (crashed: bool)
    requires HasOrphans(all)
    ensures crashed
  {
    OrphanAncestries(all);
    OrphanWeights(all);
    var db, cs, current := RewoundChain(all);
    var status;
    db, cs, status, crashed := Write(db, cs, current, Header(4, 3, 3, 1), false, all, 0);
    assert Ancestry(all, 0, 3)[1] == 1;
  }
}

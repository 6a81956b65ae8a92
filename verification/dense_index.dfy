/** The dense index of common/qdenseindexmanager.h: three parallel arrays over an append-only data file.
    File operations succeed. */
module DenseIndex {
  import opened Sorting
  import opened SortingInPlace

  /** Bytes as numbers: the lengths in the file are computed with. */
  type FileByte = b: int | 0 <= b < 256

  type FileBytes = seq<FileByte>

  const INT32_MAX := 0x7fff_ffff

  // ---------------------------------------------------------------- the records of the data file

  const BEGIN_MARK: FileBytes := [0xbb, 0xbb, 0xbb, 0xbb, 0xbb, 0xbb, 0xbb, 0xbb]

  const END_MARK: FileBytes := [0xee, 0xee, 0xee, 0xee, 0xee, 0xee, 0xee, 0xee]

  /** A 32-bit integer as it lies in memory, low byte first. */
  function Encode32(n: nat): (b: FileBytes)
    requires n <= INT32_MAX
    ensures |b| == 4
  {
    [n % 256, (n / 256) % 256, (n / 65536) % 256, n / 16777216]
  }

  /** The signed value of four bytes. */
  function Decode32(b: FileBytes): int
    requires |b| == 4
  {
    var u: int := b[0] as int + 256 * (b[1] as int) + 65536 * (b[2] as int) + 16777216 * (b[3] as int);
    if u > INT32_MAX then u - 0x1_0000_0000 else u
  }

  lemma FourDigits(n: nat)
    ensures n == n % 256 + 256 * ((n / 256) % 256) + 65536 * ((n / 65536) % 256) + 16777216 * (n / 16777216)
  {
    var a, b := n / 256, n / 65536;
    assert n == 256 * a + n % 256;
    assert b == a / 256 && a == 256 * b + a % 256;
    assert n / 16777216 == b / 256 && b == 256 * (b / 256) + b % 256;
  }

  lemma Decode32Encode32(n: nat)
    requires n <= INT32_MAX
    ensures Decode32(Encode32(n)) == n
  {
    FourDigits(n);
  }

  /** What `addKey` appends. */
  function Stored(data: FileBytes): (r: FileBytes)
    requires |data| <= INT32_MAX
    ensures |r| == |data| + 20
  {
    BEGIN_MARK + Encode32(|data|) + data + END_MARK
  }

  /** The bytes of a record: eight times 0xbb, the length with its low byte first, the data, eight times 0xee. */
  lemma StoredLayout(data: FileBytes)
    requires |data| <= INT32_MAX
    ensures var r, n := Stored(data), |data|;
            && (forall i :: 0 <= i < 8 ==> r[i] == 0xbb) && (forall i :: 12 + n <= i < 20 + n ==> r[i] == 0xee)
            && r[12..12 + n] == data
            && n == r[8] as int + 0x100 * (r[9] as int) + 0x1_0000 * (r[10] as int) + 0x100_0000 * (r[11] as int)
  {
    FourDigits(|data|);
    var r := Stored(data);
    assert r[8..12] == Encode32(|data|);
    assert r[8] == r[8..12][0] && r[9] == r[8..12][1] && r[10] == r[8..12][2] && r[11] == r[8..12][3];
  }

  /** What `searchKey` does after `fseek`: the length and the data, or an error code. */
  function ReadRecord(file: FileBytes, max: int): (r: (int, FileBytes))
  {
    if |file| < 12 then (-5, [])
    else if file[..8] != BEGIN_MARK then (-6, [])
    else
      var n := Decode32(file[8..12]);
      if n > max || n <= 0 then (-7, [])
      else if |file| < 12 + n then (-8, [])
      else if |file| < 20 + n || file[12 + n..20 + n] != END_MARK then (-9, file[12..12 + n])
      else (n, file[12..12 + n])
  }

  /** A stored record reads back, whatever was appended after it; only a small buffer can fail. */
  lemma ReadStored(data: FileBytes, rest: FileBytes, max: int)
    requires 0 < |data| <= INT32_MAX
    ensures ReadRecord(Stored(data) + rest, max) == if |data| > max then (-7, []) else (|data|, data)
  {
    var n, file := |data|, Stored(data) + rest;
    Parts(data, rest);
    Decode32Encode32(n);
  }

  lemma Parts(data: FileBytes, rest: FileBytes)
    requires 0 < |data| <= INT32_MAX
    ensures var n, file := |data|, Stored(data) + rest;
            && |file| >= 20 + n && file[..8] == BEGIN_MARK && file[8..12] == Encode32(n)
            && file[12..12 + n] == data && file[12 + n..20 + n] == END_MARK
  {
  }

  // ---------------------------------------------------------------- records and rows

  /** One successful call of `addKey`, and whether it was deleted since. */
  datatype Record = Record(key: int, data: FileBytes, deleted: bool)

  /** All records, by their offset in the data file. */
  type Records = map<int, Record>

  function RowOf(rs: Records, o: int): Row
    requires o in rs
  {
    Row(rs[o].key, o, if rs[o].deleted then 1 else 0)
  }

  function RowsOf(rs: Records): set<Row>
  {
    set o | o in rs :: RowOf(rs, o)
  }

  /** The rows of the index are those of the records, each once. */
  ghost predicate Indexed(rows: seq<Row>, rs: Records)
  {
    multiset(rows) == multiset(RowsOf(rs))
  }

  /** Every record lies in the file at its offset. */
  ghost predicate Filed(file: FileBytes, rs: Records)
  {
    forall o :: o in rs ==>
      0 <= o <= |file| && 0 < |rs[o].data| <= INT32_MAX && Stored(rs[o].data) <= file[o..]
  }

  /** No key was added twice. */
  ghost predicate Once(rs: Records)
  {
    forall o, p :: o in rs && p in rs && rs[o].key == rs[p].key ==> o == p
  }

  ghost predicate Has(rs: Records, key: int)
  {
    exists o :: o in rs && rs[o].key == key
  }

  lemma RowsAndRecords(rows: seq<Row>, rs: Records)
    requires Indexed(rows, rs)
    ensures forall i :: 0 <= i < |rows| ==> rows[i].offset in rs && rows[i] == RowOf(rs, rows[i].offset)
    ensures forall o :: o in rs ==> RowOf(rs, o) in rows
  {
    forall i | 0 <= i < |rows| ensures rows[i] in RowsOf(rs) {
      assert rows[i] in multiset(rows);
    }
    forall o | o in rs ensures RowOf(rs, o) in rows {
      assert RowOf(rs, o) in multiset(RowsOf(rs));
      assert RowOf(rs, o) in multiset(rows);
    }
  }

  lemma IndexGrows(rows: seq<Row>, rs: Records, o: int, key: int, data: FileBytes)
    requires Indexed(rows, rs) && o !in rs
    ensures Indexed(rows + [Row(key, o, 0)], rs[o := Record(key, data, false)])
  {
    var rs', row := rs[o := Record(key, data, false)], Row(key, o, 0);
    assert RowOf(rs', o) == row;
    assert RowsOf(rs') == RowsOf(rs) + {row} by {
      assert forall p :: p in rs ==> RowOf(rs', p) == RowOf(rs, p);
    }
    assert row !in RowsOf(rs);
  }

  lemma IndexMarks(rows: seq<Row>, rs: Records, i: nat, o: int)
    requires Indexed(rows, rs) && i < |rows| && o == rows[i].offset && o in rs
    ensures Indexed(rows[i := rows[i].(flag := 1)], rs[o := rs[o].(deleted := true)])
  {
    RowsAndRecords(rows, rs);
    var rs', row, row' := rs[o := rs[o].(deleted := true)], rows[i], rows[i].(flag := 1);
    assert RowOf(rs', o) == row';
    assert RowsOf(rs') == RowsOf(rs) - {row} + {row'} by {
      assert forall p :: p in rs && p != o ==> RowOf(rs', p) == RowOf(rs, p);
    }
    if row' != row { assert row' !in RowsOf(rs); }
    assert multiset(rows[i := row']) == multiset(rows) - multiset{row} + multiset{row'};
  }

  lemma SameTails(s: seq<Row>, r: seq<Row>, n: nat)
    requires n <= |s| == |r| && multiset(s) == multiset(r) && s[n..] == r[n..]
    ensures multiset(r[..n]) == multiset(s[..n])
  {
    assert s == s[..n] + s[n..] && r == r[..n] + r[n..];
    assert multiset(s[..n]) == multiset(s) - multiset(s[n..]);
    assert multiset(r[..n]) == multiset(r) - multiset(r[n..]);
  }

  lemma TailStays(s: seq<Row>, n: nat)
    requires n <= |s|
    ensures Sort(s, 0, n - 1)[n..] == s[n..]
  {
  }

  /** Sorting a prefix permutes it. */
  lemma PrefixPermutes(s: seq<Row>, n: nat)
    requires n <= |s|
    ensures multiset(Sort(s, 0, n - 1)[..n]) == multiset(s[..n])
  {
    SortPermutes(s, 0, n - 1);
    TailStays(s, n);
    SameTails(s, Sort(s, 0, n - 1), n);
  }

  /** Sorting the rows in use leaves them in order and says the same about the records. */
  lemma SortedIndex(s: seq<Row>, n: nat, rs: Records)
    requires n <= |s| && Indexed(s[..n], rs)
    ensures var r := Sort(s, 0, n - 1)[..n]; Indexed(r, rs) && SortedRange(r, 0, n - 1)
  {
    PrefixPermutes(s, n);
    SortSorts(s, 0, n - 1);
  }

  lemma FileGrows(file: FileBytes, rs: Records, key: int, data: FileBytes)
    requires Filed(file, rs) && 0 < |data| <= INT32_MAX
    ensures |file| !in rs
    ensures Filed(file + Stored(data), rs[|file| := Record(key, data, false)])
  {
    var file', rs' := file + Stored(data), rs[|file| := Record(key, data, false)];
    forall o | o in rs ensures o < |file| && Stored(rs[o].data) <= file'[o..] {
      assert file'[o..] == file[o..] + Stored(data);
    }
    assert file'[|file|..] == Stored(data);
  }

  // ---------------------------------------------------------------- the answers

  /** What `searchKey` says about a record. */
  function Answer(data: FileBytes, deleted: bool, max: int): (int, FileBytes)
  {
    if deleted then (-3, []) else if |data| > max then (-7, []) else (|data|, data)
  }

  lemma ReadFiled(file: FileBytes, rs: Records, o: int, max: int)
    requires Filed(file, rs) && o in rs
    ensures 0 <= o <= |file|
    ensures ReadRecord(file[o..], max) == if |rs[o].data| > max then (-7, []) else (|rs[o].data|, rs[o].data)
  {
    var stored, tail := Stored(rs[o].data), file[o..];
    assert tail == stored + tail[|stored|..];
    ReadStored(rs[o].data, tail[|stored|..], max);
  }

  // ---------------------------------------------------------------- runs, each key added at most once

  datatype Op = Add(key: int, data: FileBytes) | Rearrange | Search(key: int, max: int) | Delete(key: int)

  datatype Entry = Entry(data: FileBytes, deleted: bool)

  /** What was added under each key; how often; no addition since the last rearrangement. */
  datatype State = State(store: map<int, Entry>, num: nat, arranged: bool)

  /** The answers and the effects that are allowed.  While the index is out of order, a search or a deletion may
      miss a key that is there. */
  ghost predicate Step(s: State, op: Op, r: int, out: FileBytes, s': State, slots: int)
  {
    match op
    case Add(key, data) =>
      && r == (if data == [] then -1 else if s.num + 1 >= slots then -2 else 0)
      && (r == 0 ==> key !in s.store)
      && s' == if r == 0 then State(s.store[key := Entry(data, false)], s.num + 1, false) else s
    case Rearrange =>
      && r == (if s.num == 0 then -6 else 0)
      && s' == s.(arranged := true)
    case Search(key, max) =>
      && s' == s
      && if max <= 0 then r == -1
         else if r == -2 then s.arranged ==> key !in s.store
         else key in s.store && (r, out) == Answer(s.store[key].data, s.store[key].deleted, max)
    case Delete(key) =>
      if r == -2 then s' == s && (s.arranged ==> key !in s.store)
      else r == 0 && key in s.store && s' == s.(store := s.store[key := s.store[key].(deleted := true)])
  }

  /** The records of an index with one record for each key of the store. */
  ghost predicate Stands(rs: Records, store: map<int, Entry>)
  {
    && Once(rs)
    && (forall o :: o in rs ==> rs[o].key in store && store[rs[o].key] == Entry(rs[o].data, rs[o].deleted))
    && (forall k :: k in store ==> Has(rs, k))
  }

  lemma StandsAdded(rs: Records, store: map<int, Entry>, o: int, key: int, data: FileBytes)
    requires Stands(rs, store) && o !in rs && key !in store
    ensures Stands(rs[o := Record(key, data, false)], store[key := Entry(data, false)])
  {
    var rs', store' := rs[o := Record(key, data, false)], store[key := Entry(data, false)];
    assert rs'[o].key == key;
    forall k | k in store' ensures Has(rs', k) {
      if k != key {
        var p :| p in rs && rs[p].key == k;
        assert p in rs' && rs'[p].key == k;
      }
    }
  }

  lemma StandsDeleted(rs: Records, store: map<int, Entry>, o: int, key: int)
    requires Stands(rs, store) && o in rs && rs[o].key == key
    ensures key in store
    ensures Stands(rs[o := rs[o].(deleted := true)], store[key := store[key].(deleted := true)])
  {
    var rs', store' := rs[o := rs[o].(deleted := true)], store[key := store[key].(deleted := true)];
    forall k | k in store' ensures Has(rs', k) {
      var p :| p in rs && rs[p].key == k;
      assert p in rs' && rs'[p].key == k;
    }
  }

  lemma StandsHas(rs: Records, store: map<int, Entry>, key: int)
    requires Stands(rs, store)
    ensures Has(rs, key) <==> key in store
  {
  }

  /** A run from the empty index. */
  ghost predicate IsRun(ops: seq<Op>, answers: seq<(int, FileBytes)>, states: seq<State>, slots: int)
  {
    && |answers| == |ops| && |states| == |ops| + 1 && states[0] == State(map[], 0, true)
    && forall i :: 0 <= i < |ops| ==> Step(states[i], ops[i], answers[i].0, answers[i].1, states[i + 1], slots)
  }

  /** Call `i` is a successful addition of the key, or a successful deletion. */
  ghost predicate Adds(ops: seq<Op>, answers: seq<(int, FileBytes)>, i: int, key: int)
  {
    0 <= i < |ops| == |answers| && ops[i].Add? && ops[i].key == key && answers[i].0 == 0
  }

  ghost predicate Deletes(ops: seq<Op>, answers: seq<(int, FileBytes)>, i: int, key: int)
  {
    0 <= i < |ops| == |answers| && ops[i].Delete? && ops[i].key == key && answers[i].0 == 0
  }

  /** The keys of the store are those added before. */
  lemma {:induction false} StoreIsAdded(ops: seq<Op>, answers: seq<(int, FileBytes)>, states: seq<State>,
      slots: int, j: nat, key: int)
    requires IsRun(ops, answers, states, slots) && j <= |ops|
    ensures key in states[j].store <==> exists i :: 0 <= i < j && Adds(ops, answers, i, key)
  {
    if j > 0 {
      StoreIsAdded(ops, answers, states, slots, j - 1, key);
      assert Step(states[j - 1], ops[j - 1], answers[j - 1].0, answers[j - 1].1, states[j], slots);
      if Adds(ops, answers, j - 1, key) { assert key in states[j].store; }
    }
  }

  /** The entry of a key changes by additions and deletions of that key only. */
  lemma {:induction false} EntryStays(ops: seq<Op>, answers: seq<(int, FileBytes)>, states: seq<State>,
      slots: int, i: nat, j: nat, key: int)
    requires IsRun(ops, answers, states, slots) && i <= j <= |ops| && key in states[i].store
    ensures key in states[j].store && states[j].store[key].data == states[i].store[key].data
    ensures states[j].store[key].deleted <==>
            states[i].store[key].deleted || exists n :: i <= n < j && Deletes(ops, answers, n, key)
  {
    if i < j {
      EntryStays(ops, answers, states, slots, i, j - 1, key);
      assert Step(states[j - 1], ops[j - 1], answers[j - 1].0, answers[j - 1].1, states[j], slots);
      if Deletes(ops, answers, j - 1, key) { assert states[j].store[key].deleted; }
    }
  }

  /** After a rearrangement the index is in order until the next addition. */
  lemma {:induction false} StaysArranged(ops: seq<Op>, answers: seq<(int, FileBytes)>, states: seq<State>,
      slots: int, i: nat, j: nat)
    requires IsRun(ops, answers, states, slots) && i < j <= |ops| && ops[i] == Rearrange
    requires forall n :: i < n < j ==> !(ops[n].Add? && answers[n].0 == 0)
    ensures states[j].arranged
  {
    assert Step(states[j - 1], ops[j - 1], answers[j - 1].0, answers[j - 1].1, states[j], slots);
    if i + 1 < j { StaysArranged(ops, answers, states, slots, i, j - 1); }
  }

  /** The answer of a search at `j`, after a rearrangement at `i` with no addition in between, in any run of
      additions, rearrangements, searches and deletions. */
  lemma SearchAfterRearrange(ops: seq<Op>, answers: seq<(int, FileBytes)>, states: seq<State>, slots: int,
      i: nat, j: nat, key: int, max: int)
    requires IsRun(ops, answers, states, slots) && i < j < |ops| && ops[i] == Rearrange
    requires forall n :: i < n < j ==> !(ops[n].Add? && answers[n].0 == 0)
    requires ops[j] == Search(key, max) && max > 0
    ensures answers[j].0 == -2 <==> forall a :: 0 <= a < j ==> !Adds(ops, answers, a, key)
    ensures forall a :: 0 <= a < j && Adds(ops, answers, a, key) ==>
              answers[j] == Answer(ops[a].data, exists d :: a < d < j && Deletes(ops, answers, d, key), max)
  {
    StaysArranged(ops, answers, states, slots, i, j);
    StoreIsAdded(ops, answers, states, slots, j, key);
    assert Step(states[j], ops[j], answers[j].0, answers[j].1, states[j + 1], slots);
    forall a | 0 <= a < j && Adds(ops, answers, a, key)
      ensures answers[j] == Answer(ops[a].data, exists d :: a < d < j && Deletes(ops, answers, d, key), max)
    {
      assert Step(states[a], ops[a], answers[a].0, answers[a].1, states[a + 1], slots);
      EntryStays(ops, answers, states, slots, a + 1, j, key);
      assert (exists d :: a < d < j && Deletes(ops, answers, d, key)) <==>
          (exists d :: a + 1 <= d < j && Deletes(ops, answers, d, key));
    }
  }

  class Manager {
    const keys: array<int>
    const offsets: array<int>
    const flags: array<int>
    const maxIndexSize: int
    var nowIndexNum: int
    var file: FileBytes              // the data file
    ghost var records: Records   // every successful addKey

    ghost predicate Arrays()
      reads this`nowIndexNum
    {
      && keys.Length == offsets.Length == flags.Length == maxIndexSize
      && keys != offsets && keys != flags && offsets != flags
      && 0 <= nowIndexNum <= maxIndexSize
    }

    ghost function Rows(): (rows: seq<Row>)
      requires Arrays()
      reads this`nowIndexNum, keys, offsets, flags
      ensures |rows| == nowIndexNum
    {
      Zip(keys[..], offsets[..], flags[..])[..nowIndexNum]
    }

    ghost predicate Valid()
      reads this, keys, offsets, flags
    {
      Arrays() && Indexed(Rows(), records) && Filed(file, records)
    }

    /** The index is in order, as `rearrangeIndex` leaves it. */
    ghost predicate Arranged()
      requires Arrays()
      reads this`nowIndexNum, keys, offsets, flags
    {
      SortedRange(Rows(), 0, nowIndexNum - 1)
    }

    /** `init` for a new index. */
    constructor (max: nat)
      ensures Models(State(map[], 0, true)) && records == map[] && maxIndexSize == max
      ensures fresh(keys) && fresh(offsets) && fresh(flags)
    {
      maxIndexSize, nowIndexNum := max, 0;
      file := [];
      keys, offsets, flags := new int[max], new int[max], new int[max];
      records := map[];
    }

    /** `addKey`: -1 without data, -2 when all but one of the slots are used; otherwise one more record.
        A key that was added before is not refused. */
    method AddKey(key: int, vpData: FileBytes) returns (r: int)
      requires Valid() && |vpData| <= INT32_MAX
      modifies this, keys, offsets, flags
      ensures Valid()
      ensures r == if vpData == [] then -1 else if old(nowIndexNum) + 1 >= maxIndexSize then -2 else 0
      ensures r != 0 ==> records == old(records) && file == old(file) && Rows() == old(Rows())
      ensures r == 0 ==>
              var o := |old(file)|; o !in old(records) && records == old(records)[o := Record(key, vpData, false)]
      ensures r == 0 ==> nowIndexNum == old(nowIndexNum) + 1
    {
      if |vpData| <= 0 { return -1; }
      if nowIndexNum + 1 >= maxIndexSize { return -2; }
      ghost var rows := Rows();
      var offset := |file|;
      FileGrows(file, records, key, vpData);
      IndexGrows(rows, records, offset, key, vpData);
      file := file + BEGIN_MARK + Encode32(|vpData|) + vpData + END_MARK;
      assert file == old(file) + Stored(vpData);
      keys[nowIndexNum] := key;
      offsets[nowIndexNum] := offset;
      flags[nowIndexNum] := 0;
      nowIndexNum := nowIndexNum + 1;
      records := records[offset := Record(key, vpData, false)];
      assert Rows() == rows + [Row(key, offset, 0)];
      r := 0;
    }

    /** `rearrangeIndex`: the index is in order and holds the same rows; an empty index is reported as a
        failed write of nothing. */
    method RearrangeIndex() returns (r: int)
      requires Valid()
      modifies keys, offsets, flags
      ensures Valid() && Arranged()
      ensures r == if nowIndexNum == 0 then -6 else 0
    {
      ghost var s := Zip(keys[..], offsets[..], flags[..]);
      SortedIndex(s, nowIndexNum, records);
      Recursion1K2P(keys, offsets, flags, 0, nowIndexNum - 1);
      r := if nowIndexNum == 0 then -6 else 0;
    }

    /** The binary search of `searchKey` and `deleteKey`: the row of a record of this key; none on an index in
        order exactly when no record has the key. */
    method Find(key: int) returns (index: int)
      requires Valid()
      ensures index == -1 || 0 <= index < nowIndexNum
      ensures index != -1 ==> offsets[index] in records && records[offsets[index]].key == key
      ensures index != -1 ==> Rows()[index] == RowOf(records, offsets[index])
      ensures index == -1 && Arranged() ==> !Has(records, key)
    {
      RowsAndRecords(Rows(), records);
      index := BinarySearch(keys, 0, nowIndexNum - 1, key);
      assert forall i :: 0 <= i < nowIndexNum ==> Rows()[i].key == keys[i] && Rows()[i].offset == offsets[i];
    }

    /** `searchKey`: about a record of this key, unless -1 (no buffer) or -2.  On an index in order, -2 means
        exactly that the key was never added. */
    method SearchKey(key: int, maxDataSize: int) returns (r: int, vpData: FileBytes)
      requires Valid()
      ensures r == -1 <==> maxDataSize <= 0
      ensures r == -2 && Arranged() ==> !Has(records, key)
      ensures r != -1 && r != -2 ==>
                exists o :: o in records && records[o].key == key
                            && (r, vpData) == Answer(records[o].data, records[o].deleted, maxDataSize)
    {
      vpData := [];
      if maxDataSize <= 0 { return -1, []; }
      var index := Find(key);
      if index < 0 { return -2, []; }
      ghost var o := offsets[index];
      if flags[index] == 1 { return -3, []; }
      ReadFiled(file, records, offsets[index], maxDataSize);
      var answer := ReadRecord(file[offsets[index]..], maxDataSize);
      r, vpData := answer.0, answer.1;
    }

    /** `deleteKey`: marks a record of this key; -2 otherwise, which on an index in order means that the key was
        never added. */
    method DeleteKey(key: int) returns (r: int)
      requires Valid()
      modifies flags, this`records
      ensures Valid()
      ensures r == 0 || r == -2
      ensures r == -2 ==> records == old(records)
      ensures r == -2 && old(Arranged()) ==> !Has(records, key)
      ensures r == 0 ==> exists o :: o in old(records) && old(records)[o].key == key
                                     && records == old(records)[o := old(records)[o].(deleted := true)]
      ensures old(Arranged()) ==> Arranged()
    {
      var index := Find(key);
      if index < 0 { return -2; }
      ghost var o := offsets[index];
      ghost var rows := Rows();
      IndexMarks(rows, records, index, o);
      flags[index] := 1;
      records := records[o := records[o].(deleted := true)];
      assert Rows() == rows[index := rows[index].(flag := 1)];
      r := 0;
    }

    /** The index stands for the state. */
    ghost predicate Models(s: State)
      reads this, keys, offsets, flags
    {
      && Valid() && Stands(records, s.store) && s.num == nowIndexNum
      && (s.arranged ==> Arranged())
    }

    method PerformAdd(key: int, data: FileBytes, ghost s: State) returns (r: int, ghost s': State)
      requires Models(s) && |data| <= INT32_MAX && key !in s.store
      modifies this, keys, offsets, flags
      ensures Models(s') && Step(s, Add(key, data), r, [], s', maxIndexSize)
    {
      ghost var rs, o := records, |file|;
      r := AddKey(key, data);
      s' := s;
      if r == 0 {
        StandsAdded(rs, s.store, o, key, data);
        s' := State(s.store[key := Entry(data, false)], s.num + 1, false);
      }
    }

    method PerformDelete(key: int, ghost s: State) returns (r: int, ghost s': State)
      requires Models(s)
      modifies flags, this`records
      ensures Models(s') && Step(s, Delete(key), r, [], s', maxIndexSize)
    {
      ghost var rs := records;
      r := DeleteKey(key);
      StandsHas(rs, s.store, key);
      s' := s;
      if r == 0 {
        ghost var o :| o in rs && rs[o].key == key && records == rs[o := rs[o].(deleted := true)];
        StandsDeleted(rs, s.store, o, key);
        s' := s.(store := s.store[key := s.store[key].(deleted := true)]);
      }
    }

    method PerformRearrange(ghost s: State) returns (r: int)
      requires Models(s)
      modifies keys, offsets, flags
      ensures Models(s.(arranged := true)) && Step(s, Rearrange, r, [], s.(arranged := true), maxIndexSize)
    {
      r := RearrangeIndex();
    }

    method PerformSearch(key: int, max: int, ghost s: State) returns (r: int, out: FileBytes)
      requires Models(s)
      ensures Step(s, Search(key, max), r, out, s, maxIndexSize)
    {
      StandsHas(records, s.store, key);
      r, out := SearchKey(key, max);
    }

    /** Every call is a step of the state, when no key is added twice. */
    method Perform(op: Op, ghost s: State) returns (r: int, out: FileBytes, ghost s': State)
      requires Models(s) && (op.Add? ==> |op.data| <= INT32_MAX && op.key !in s.store)
      modifies this, keys, offsets, flags
      ensures Models(s') && Step(s, op, r, out, s', maxIndexSize)
    {
      out := [];
      match op
      case Add(key, data) => r, s' := PerformAdd(key, data, s);
      case Rearrange => r := PerformRearrange(s); s' := s.(arranged := true);
      case Search(key, max) => r, out := PerformSearch(key, max, s); s' := s;
      case Delete(key) => r, s' := PerformDelete(key, s);
    }

    /** Any sequence of calls on a new index that adds no key twice is a run. */
    method Run(ops: seq<Op>) returns (answers: seq<(int, FileBytes)>, ghost states: seq<State>)
      requires Models(State(map[], 0, true)) && Addable(ops)
      modifies this, keys, offsets, flags
      ensures IsRun(ops, answers, states, maxIndexSize)
    {
      answers := [];
      ghost var s := State(map[], 0, true);
      states := [s];
      for n := 0 to |ops|
        invariant Models(s) && |states| == n + 1 && states[n] == s && IsRun(ops[..n], answers, states, maxIndexSize)
      {
        var r, out;
        ghost var s';
        NotAddedYet(ops, answers, states, maxIndexSize, n);
        r, out, s' := Perform(ops[n], s);
        RunGrows(ops, answers, states, maxIndexSize, n, r, out, s');
        answers, states, s := answers + [(r, out)], states + [s'], s';
      }
      assert ops[..|ops|] == ops;
    }
  }

  /** Data that fits and no key twice. */
  ghost predicate Addable(ops: seq<Op>)
  {
    && (forall i :: 0 <= i < |ops| && ops[i].Add? ==> |ops[i].data| <= INT32_MAX)
    && (forall i, j :: 0 <= i < j < |ops| && ops[i].Add? && ops[j].Add? ==> ops[i].key != ops[j].key)
  }

  lemma NotAddedYet(ops: seq<Op>, answers: seq<(int, FileBytes)>, states: seq<State>, slots: int, n: nat)
    requires Addable(ops) && n < |ops| && IsRun(ops[..n], answers, states, slots)
    ensures ops[n].Add? ==> |ops[n].data| <= INT32_MAX && ops[n].key !in states[n].store
  {
    if ops[n].Add? { StoreIsAdded(ops[..n], answers, states, slots, n, ops[n].key); }
  }

  lemma RunGrows(ops: seq<Op>, answers: seq<(int, FileBytes)>, states: seq<State>, slots: int, n: nat, r: int,
      out: FileBytes, s': State)
    requires n < |ops| && IsRun(ops[..n], answers, states, slots) && Step(states[n], ops[n], r, out, s', slots)
    ensures IsRun(ops[..n + 1], answers + [(r, out)], states + [s'], slots)
  {
  }
}

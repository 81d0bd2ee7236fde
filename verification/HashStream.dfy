/** The bytes a package's hash is taken over: each file's path, content hash and permissions,
    every field behind its own length, files in the order of their paths. */
module HashStream {
  import opened Wrappers

  newtype Byte = x: int | 0 <= x < 256

  type Bytes = seq<Byte>

  const MAX_LENGTH := 0x1_0000_0000_0000_0000

  /** A file as it enters the hash; permissions are the nine permission bits. */
  datatype Record = Record(path: Bytes, hash: Bytes, perm: nat) {
    predicate Fits() {
      |path| < MAX_LENGTH && |hash| < MAX_LENGTH && perm < 512
    }
  }

  // ---------------------------------------------------------------- framing

  function LittleEndian(n: nat, width: nat): (r: Bytes)
    ensures |r| == width
  {
    if width == 0 then [] else [(n % 256) as Byte] + LittleEndian(n / 256, width - 1)
  }

  function Value(bytes: Bytes): nat {
    if bytes == [] then 0 else bytes[0] as nat + 256 * Value(bytes[1..])
  }

  function Power(width: nat): nat {
    if width == 0 then 1 else 256 * Power(width - 1)
  }

  lemma {:induction false} ValueOfLittleEndian(n: nat, width: nat)
    requires n < Power(width)
    ensures Value(LittleEndian(n, width)) == n
  {
    if width > 0 {
      ValueOfLittleEndian(n / 256, width - 1);
      assert LittleEndian(n, width)[1..] == LittleEndian(n / 256, width - 1);
    }
  }

  lemma EightBytes()
    ensures Power(8) == MAX_LENGTH
  {
    assert Power(4) == 0x1_0000_0000;
  }

  function Field(s: Bytes): Bytes {
    LittleEndian(|s|, 8) + s
  }

  /** Octal digits, the most significant first, without leading zeros. */
  function Octal(n: nat): Bytes {
    if n < 8 then [(48 + n) as Byte] else Octal(n / 8) + [(48 + n % 8) as Byte]
  }

  lemma {:induction false} OctalIsInjective(m: nat, n: nat)
    requires Octal(m) == Octal(n)
    ensures m == n
  {
    var a, b := Octal(m), Octal(n);
    OctalNonempty(m);
    OctalNonempty(n);
    if m >= 8 { OctalNonempty(m / 8); }
    if n >= 8 { OctalNonempty(n / 8); }
    assert a[|a| - 1] as int == 48 + m % 8 && b[|b| - 1] as int == 48 + n % 8;
    if m >= 8 && n >= 8 {
      assert a[..|a| - 1] == Octal(m / 8) && b[..|b| - 1] == Octal(n / 8);
      OctalIsInjective(m / 8, n / 8);
    }
  }

  lemma {:induction false} OctalNonempty(n: nat)
    ensures |Octal(n)| > 0 && (n < 512 ==> |Octal(n)| <= 3)
    ensures (n < 8 ==> |Octal(n)| == 1) && (n < 64 ==> |Octal(n)| <= 2)
  {
    if n >= 8 { OctalNonempty(n / 8); }
  }

  function Encoded(r: Record): Bytes {
    Field(r.path) + (Field(r.hash) + Field(Octal(r.perm)))
  }

  function Stream(rs: seq<Record>): Bytes {
    if rs == [] then [] else Encoded(rs[0]) + Stream(rs[1..])
  }

  /** A framed field can be read off the front of whatever follows it. */
  lemma FieldIsRecovered(s: Bytes, t: Bytes, more: Bytes, less: Bytes)
    requires |s| < MAX_LENGTH && |t| < MAX_LENGTH && Field(s) + more == Field(t) + less
    ensures s == t && more == less
  {
    EightBytes();
    var x, y := Field(s) + more, Field(t) + less;
    assert x[..8] == LittleEndian(|s|, 8) && y[..8] == LittleEndian(|t|, 8);
    ValueOfLittleEndian(|s|, 8);
    ValueOfLittleEndian(|t|, 8);
    hide LittleEndian;
    assert s == x[8..8 + |s|] && t == y[8..8 + |t|];
    assert more == x[8 + |s|..] && less == y[8 + |t|..];
  }

  lemma RecordIsRecovered(r: Record, q: Record, more: Bytes, less: Bytes)
    requires r.Fits() && q.Fits() && Encoded(r) + more == Encoded(q) + less
    ensures r == q && more == less
  {
    hide Field, Octal;
    var rp, qp := Field(Octal(r.perm)), Field(Octal(q.perm));
    assert Encoded(r) + more == Field(r.path) + (Field(r.hash) + (rp + more));
    assert Encoded(q) + less == Field(q.path) + (Field(q.hash) + (qp + less));
    FieldIsRecovered(r.path, q.path, Field(r.hash) + (rp + more), Field(q.hash) + (qp + less));
    FieldIsRecovered(r.hash, q.hash, rp + more, qp + less);
    OctalNonempty(r.perm);
    OctalNonempty(q.perm);
    FieldIsRecovered(Octal(r.perm), Octal(q.perm), more, less);
    OctalIsInjective(r.perm, q.perm);
  }

  lemma EncodedIsLong(r: Record)
    ensures |Encoded(r)| >= 24
  {
    hide LittleEndian, Octal;
  }

  /** A stream decodes in one way only: no path can imitate the end of a record. */
  lemma {:induction false} StreamIsInjective(rs: seq<Record>, qs: seq<Record>)
    requires (forall r :: r in rs ==> r.Fits()) && (forall q :: q in qs ==> q.Fits())
    requires Stream(rs) == Stream(qs)
    ensures rs == qs
  {
    hide Encoded;
    if rs != [] { EncodedIsLong(rs[0]); }
    if qs != [] { EncodedIsLong(qs[0]); }
    if rs != [] && qs != [] {
      RecordIsRecovered(rs[0], qs[0], Stream(rs[1..]), Stream(qs[1..]));
      StreamIsInjective(rs[1..], qs[1..]);
      assert rs == [rs[0]] + rs[1..] && qs == [qs[0]] + qs[1..];
    }
  }

  // ---------------------------------------------------------------- reading it back

  /** Eight bytes of length, the least significant first, and as many bytes as they say. */
  function ReadField(s: Bytes): (r: Option<(Bytes, Bytes)>)
    ensures r.Some? ==> |r.value.1| < |s|
  {
    if |s| < 8 || |s| - 8 < Value(s[..8]) then None
    else Some((s[8..8 + Value(s[..8])], s[8 + Value(s[..8])..]))
  }

  /** A number in octal digits. */
  function ReadOctal(digits: Bytes): int {
    if digits == [] then 0 else 8 * ReadOctal(digits[..|digits| - 1]) + (digits[|digits| - 1] as int - 48)
  }

  /** Reads records of a path, a content hash and permissions in octal off a stream. */
  function ReadStream(s: Bytes): Option<seq<Record>>
    decreases |s|
  {
    if s == [] then Some([])
    else
      match ReadRecord(s)
      case None => None
      case Some((r, rest)) =>
        match ReadStream(rest)
        case None => None
        case Some(rs) => Some([r] + rs)
  }

  function ReadRecord(s: Bytes): (r: Option<(Record, Bytes)>)
    ensures r.Some? ==> |r.value.1| < |s|
  {
    match ReadField(s)
    case None => None
    case Some((path, s1)) =>
      match ReadField(s1)
      case None => None
      case Some((hash, s2)) =>
        match ReadField(s2)
        case None => None
        case Some((perm, s3)) =>
          if ReadOctal(perm) < 0 then None else Some((Record(path, hash, ReadOctal(perm)), s3))
  }

  lemma FieldIsRead(s: Bytes, more: Bytes)
    requires |s| < MAX_LENGTH
    ensures ReadField(Field(s) + more) == Some((s, more))
  {
    EightBytes();
    ValueOfLittleEndian(|s|, 8);
    hide LittleEndian, Value;
    var x := Field(s) + more;
    assert x[..8] == LittleEndian(|s|, 8) && x[8..8 + |s|] == s && x[8 + |s|..] == more;
  }

  lemma {:induction false} OctalIsRead(n: nat)
    ensures ReadOctal(Octal(n)) == n
  {
    var d := Octal(n);
    if n < 8 {
      assert d[..0] == [];
    } else {
      OctalIsRead(n / 8);
      assert d[..|d| - 1] == Octal(n / 8);
    }
  }

  lemma RecordIsRead(r: Record, rest: Bytes)
    requires r.Fits()
    ensures ReadRecord(Encoded(r) + rest) == Some((r, rest))
  {
    hide Field, Octal, ReadField, ReadOctal;
    var perm := Field(Octal(r.perm));
    OctalNonempty(r.perm);
    OctalIsRead(r.perm);
    assert Encoded(r) + rest == Field(r.path) + (Field(r.hash) + (perm + rest));
    FieldIsRead(r.path, Field(r.hash) + (perm + rest));
    FieldIsRead(r.hash, perm + rest);
    FieldIsRead(Octal(r.perm), rest);
  }

  /** Reading a stream back gives the records it was made of, in their order. */
  lemma {:induction false} StreamIsRead(rs: seq<Record>)
    requires forall r :: r in rs ==> r.Fits()
    ensures ReadStream(Stream(rs)) == Some(rs)
  {
    hide Encoded, ReadRecord;
    if rs != [] {
      EncodedIsLong(rs[0]);
      StreamIsRead(rs[1..]);
      RecordIsRead(rs[0], Stream(rs[1..]));
      assert rs == [rs[0]] + rs[1..];
    }
  }

  // ---------------------------------------------------------------- the order of paths

  predicate Less(a: Bytes, b: Bytes) {
    if a == [] then b != []
    else b != [] && (a[0] < b[0] || (a[0] == b[0] && Less(a[1..], b[1..])))
  }

  lemma {:induction false} LessIsTotal(a: Bytes, b: Bytes)
    ensures Less(a, b) || a == b || Less(b, a)
    ensures !(Less(a, b) && Less(b, a)) && !Less(a, a)
  {
    if a != [] { LessIsTotal(a[1..], a[1..]); }
    if a != [] && b != [] {
      LessIsTotal(a[1..], b[1..]);
      assert a == [a[0]] + a[1..] && b == [b[0]] + b[1..];
    }
  }

  lemma {:induction false} LessIsTransitive(a: Bytes, b: Bytes, c: Bytes)
    requires Less(a, b) && Less(b, c)
    ensures Less(a, c)
  {
    if a != [] && a[0] == b[0] == c[0] { LessIsTransitive(a[1..], b[1..], c[1..]); }
  }

  /** The bytes before k agree and that at k is less. */
  predicate DiffersAt(a: Bytes, b: Bytes, k: nat) {
    k < |a| && k < |b| && a[..k] == b[..k] && a[k] < b[k]
  }

  lemma DiffersLater(a: Bytes, b: Bytes, k: nat)
    requires a != [] && b != [] && a[0] == b[0]
    ensures DiffersAt(a[1..], b[1..], k) == DiffersAt(a, b, k + 1)
  {
    if k < |a[1..]| && k < |b[1..]| {
      assert a[..k + 1] == [a[0]] + a[1..][..k] && b[..k + 1] == [b[0]] + b[1..][..k];
      assert a[..k + 1][1..] == a[1..][..k] && b[..k + 1][1..] == b[1..][..k];
    }
  }

  /** The order is byte by byte: a path comes before those it begins, and before those with a
      greater byte where the two first differ. */
  lemma {:induction false} LessIsBytewise(a: Bytes, b: Bytes)
    ensures Less(a, b) <==> a < b || exists k :: DiffersAt(a, b, k)
  {
    if a != [] && b != [] {
      assert a == [a[0]] + a[1..] && b == [b[0]] + b[1..];
      if a[0] != b[0] {
        assert DiffersAt(a, b, 0) <==> a[0] < b[0];
        assert forall k: nat :: 0 < k <= |a| && k <= |b| ==> a[..k][0] == a[0] && b[..k][0] == b[0];
      } else {
        LessIsBytewise(a[1..], b[1..]);
        forall k: nat { DiffersLater(a, b, k); }
        if k: nat :| DiffersAt(a, b, k) { assert DiffersAt(a[1..], b[1..], k - 1); }
      }
    }
  }

  predicate Ascending(rs: seq<Record>) {
    forall i, j :: 0 <= i < j < |rs| ==> Less(rs[i].path, rs[j].path)
  }

  predicate DistinctPaths(rs: seq<Record>) {
    forall i, j :: 0 <= i < j < |rs| ==> rs[i].path != rs[j].path
  }

  function Insert(r: Record, rs: seq<Record>): seq<Record> {
    if rs == [] || Less(r.path, rs[0].path) then [r] + rs else [rs[0]] + Insert(r, rs[1..])
  }

  function Sorted(rs: seq<Record>): seq<Record> {
    if rs == [] then [] else Insert(rs[0], Sorted(rs[1..]))
  }

  lemma {:induction false} InsertKeeps(r: Record, rs: seq<Record>)
    ensures forall x :: x in Insert(r, rs) <==> x == r || x in rs
  {
    if rs != [] && !Less(r.path, rs[0].path) {
      InsertKeeps(r, rs[1..]);
      assert rs == [rs[0]] + rs[1..];
    }
  }

  lemma {:induction false} SortedKeeps(rs: seq<Record>)
    ensures forall x :: x in Sorted(rs) <==> x in rs
  {
    if rs != [] {
      SortedKeeps(rs[1..]);
      InsertKeeps(rs[0], Sorted(rs[1..]));
      assert rs == [rs[0]] + rs[1..];
    }
  }

  lemma {:induction false} InsertAscends(r: Record, rs: seq<Record>)
    requires Ascending(rs) && forall x :: x in rs ==> x.path != r.path
    ensures Ascending(Insert(r, rs))
  {
    if rs != [] {
      LessIsTotal(r.path, rs[0].path);
      if Less(r.path, rs[0].path) {
        forall j | 0 <= j < |rs| ensures Less(r.path, rs[j].path) {
          if j > 0 { LessIsTransitive(r.path, rs[0].path, rs[j].path); }
        }
      } else {
        InsertAscends(r, rs[1..]);
        InsertKeeps(r, rs[1..]);
        var t := Insert(r, rs[1..]);
        forall j | 0 <= j < |t| ensures Less(rs[0].path, t[j].path) { assert t[j] in t; }
      }
    }
  }

  lemma {:induction false} SortedAscends(rs: seq<Record>)
    requires DistinctPaths(rs)
    ensures Ascending(Sorted(rs))
  {
    if rs != [] {
      SortedAscends(rs[1..]);
      SortedKeeps(rs[1..]);
      InsertAscends(rs[0], Sorted(rs[1..]));
    }
  }

  /** There is one ascending list of a set of records. */
  lemma {:induction false} AscendingIsUnique(rs: seq<Record>, qs: seq<Record>)
    requires Ascending(rs) && Ascending(qs) && forall x :: x in rs <==> x in qs
    ensures rs == qs
  {
    assert qs != [] ==> qs[0] in qs;
    if rs != [] {
      assert rs[0] in qs;
      FirstIsSame(rs, qs);
      RestIsSame(rs, qs);
      RestIsSame(qs, rs);
      AscendingIsUnique(rs[1..], qs[1..]);
      assert rs == [rs[0]] + rs[1..] && qs == [qs[0]] + qs[1..];
    }
  }

  lemma FirstIsSame(rs: seq<Record>, qs: seq<Record>)
    requires rs != [] && qs != [] && Ascending(rs) && Ascending(qs) && rs[0] in qs && qs[0] in rs
    ensures rs[0] == qs[0]
  {
    var i :| 0 <= i < |qs| && qs[i] == rs[0];
    var j :| 0 <= j < |rs| && rs[j] == qs[0];
    LessIsTotal(rs[0].path, qs[0].path);
  }

  lemma RestIsSame(rs: seq<Record>, qs: seq<Record>)
    requires rs != [] && qs != [] && Ascending(rs) && rs[0] == qs[0] && forall x :: x in rs ==> x in qs
    ensures forall x :: x in rs[1..] ==> x in qs[1..]
  {
    forall x | x in rs[1..] ensures x in qs[1..] {
      assert x in rs;
      var i :| 0 < i < |rs| && rs[i] == x;
      LessIsTotal(x.path, x.path);
      assert qs == [qs[0]] + qs[1..];
    }
  }

  /** Two lists of files with distinct paths give one stream exactly when they hold the same
      paths with the same contents' hashes and permissions, in whatever order. */
  lemma StreamIdentifiesFiles(rs: seq<Record>, qs: seq<Record>)
    requires DistinctPaths(rs) && DistinctPaths(qs)
    requires (forall r :: r in rs ==> r.Fits()) && (forall q :: q in qs ==> q.Fits())
    ensures Stream(Sorted(rs)) == Stream(Sorted(qs)) <==> forall x :: x in rs <==> x in qs
  {
    hide Stream, Sorted, Ascending, DistinctPaths;
    SortedKeeps(rs);
    SortedKeeps(qs);
    if Stream(Sorted(rs)) == Stream(Sorted(qs)) {
      StreamIsInjective(Sorted(rs), Sorted(qs));
    }
    if forall x :: x in rs <==> x in qs {
      SortedAscends(rs);
      SortedAscends(qs);
      AscendingIsUnique(Sorted(rs), Sorted(qs));
    }
  }

  // ---------------------------------------------------------------- writing the stream

  lemma {:induction false} StreamExtends(rs: seq<Record>, r: Record)
    ensures Stream(rs + [r]) == Stream(rs) + Encoded(r)
  {
    hide Encoded;
    if rs == [] {
      assert [] + [r] == [r] && [r][1..] == [];
    } else {
      assert (rs + [r])[1..] == rs[1..] + [r];
      StreamExtends(rs[1..], r);
    }
  }

  lemma FieldsInTurn(before: Bytes, r: Record)
    ensures before + Field(r.path) + Field(r.hash) + Field(Octal(r.perm)) == before + Encoded(r)
  {
    hide Field, Octal;
  }

  /** Writes each file's three fields in turn, files in path order. */
  method HashFiles(files: seq<Record>, hash: Bytes -> Bytes) returns (digest: Bytes)
    ensures digest == hash(Stream(Sorted(files)))
    ensures DistinctPaths(files) ==>
              Ascending(Sorted(files)) && forall x :: x in Sorted(files) <==> x in files
  {
    hide Field, Octal, Sorted, Ascending, DistinctPaths, Less;
    SortedKeeps(files);
    if DistinctPaths(files) { SortedAscends(files); }
    var sorted := Sorted(files);
    var written: Bytes := [];
    for i := 0 to |sorted|
      invariant written == Stream(sorted[..i])
    {
      assert sorted[..i + 1] == sorted[..i] + [sorted[i]];
      StreamExtends(sorted[..i], sorted[i]);
      FieldsInTurn(written, sorted[i]);
      written := written + Field(sorted[i].path);
      written := written + Field(sorted[i].hash);
      written := written + Field(Octal(sorted[i].perm));
    }
    assert sorted[..|sorted|] == sorted;
    digest := hash(written);
  }
}

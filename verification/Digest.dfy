/** The digest of a set of resolved secrets: what is fed to the hash, and why it is canonical. */
module Digest {
  import opened Strings

  type Bytes = seq<int>

  function ToBytes(s: string): (b: Bytes)
    ensures |b| == |s|
  {
    seq(|s|, i requires 0 <= i < |s| => s[i] as int)
  }

  lemma ToBytesInjective(s: string, t: string)
    requires ToBytes(s) == ToBytes(t)
    ensures s == t
  {
    forall i | 0 <= i < |s| ensures s[i] == t[i] {
      assert ToBytes(s)[i] == s[i] as int && ToBytes(t)[i] == t[i] as int;
    }
  }

  // ---------------------------------------------------------------------------------------
  // Order of strings: by bytes, from the left.
  // ---------------------------------------------------------------------------------------

  predicate AtMost(a: string, b: string) {
    a == "" || (b != "" && (a[0] < b[0] || (a[0] == b[0] && AtMost(a[1..], b[1..]))))
  }

  lemma {:induction false} AtMostTotal(a: string, b: string)
    ensures AtMost(a, b) || AtMost(b, a)
    ensures AtMost(a, b) && AtMost(b, a) ==> a == b
  {
    if a != "" && b != "" {
      AtMostTotal(a[1..], b[1..]);
      assert a == [a[0]] + a[1..] && b == [b[0]] + b[1..];
    }
  }

  lemma {:induction false} AtMostTransitive(a: string, b: string, c: string)
    requires AtMost(a, b) && AtMost(b, c)
    ensures AtMost(a, c)
  {
    if a != "" {
      if a[0] == b[0] == c[0] { AtMostTransitive(a[1..], b[1..], c[1..]); }
    }
  }

  predicate Sorted(keys: seq<string>) {
    forall i, j | 0 <= i < j < |keys| :: AtMost(keys[i], keys[j])
  }

  predicate Distinct(keys: seq<string>) {
    forall i, j | 0 <= i < j < |keys| :: keys[i] != keys[j]
  }

  function KeySet(keys: seq<string>): set<string> {
    set k | k in keys
  }

  /** A set has only one sorted enumeration, whatever order it was found in. */
  lemma {:induction false} SortedUnique(a: seq<string>, b: seq<string>)
    requires Sorted(a) && Distinct(a) && Sorted(b) && Distinct(b) && KeySet(a) == KeySet(b)
    ensures a == b
    decreases |a|
  {
    if a == [] || b == [] {
      NoKeys(a);
      NoKeys(b);
    } else {
      HeadIsLeast(a, b);
      HeadIsLeast(b, a);
      AtMostTotal(a[0], b[0]);
      TailKeys(a);
      TailKeys(b);
      SortedUnique(a[1..], b[1..]);
      assert a == [a[0]] + a[1..] && b == [b[0]] + b[1..];
    }
  }

  lemma NoKeys(a: seq<string>)
    ensures KeySet(a) == {} <==> a == []
  {
    if a != [] { assert a[0] in KeySet(a); }
  }

  lemma HeadIsLeast(a: seq<string>, b: seq<string>)
    requires Sorted(a) && a != [] && b != [] && KeySet(a) == KeySet(b)
    ensures AtMost(a[0], b[0])
  {
    assert b[0] in KeySet(b);
    var i :| 0 <= i < |a| && a[i] == b[0];
    AtMostTotal(a[0], a[0]);
  }

  lemma TailKeys(a: seq<string>)
    requires Distinct(a) && a != []
    ensures KeySet(a[1..]) == KeySet(a) - {a[0]}
  {
    assert a == [a[0]] + a[1..];
    forall k | k in a[1..] ensures k != a[0] {
      var i :| 0 <= i < |a[1..]| && a[1..][i] == k;
      assert a[i + 1] == k;
    }
  }

  // ---------------------------------------------------------------------------------------
  // Length-prefixed fields.
  // ---------------------------------------------------------------------------------------

  const TWO_TO_64: nat := 0x1_0000_0000_0000_0000

  // The low `width` bytes of n, most significant first.
  function BigEndian(n: nat, width: nat): (b: Bytes)
    ensures |b| == width
    decreases width
  {
    if width == 0 then [] else BigEndian(n / 256, width - 1) + [n % 256]
  }

  function FromBigEndian(b: Bytes): int
    decreases |b|
  {
    if b == [] then 0 else FromBigEndian(b[..|b| - 1]) * 256 + b[|b| - 1]
  }

  function Pow256(width: nat): (p: nat)
    ensures p >= 1
  {
    if width == 0 then 1 else 256 * Pow256(width - 1)
  }

  lemma {:induction false} BigEndianRoundTrip(n: nat, width: nat)
    requires n < Pow256(width)
    ensures FromBigEndian(BigEndian(n, width)) == n
    decreases width
  {
    if width > 0 {
      assert n / 256 < Pow256(width - 1);
      BigEndianRoundTrip(n / 256, width - 1);
      var b := BigEndian(n, width);
      assert b[..|b| - 1] == BigEndian(n / 256, width - 1);
    }
  }

  lemma EightBytes()
    ensures Pow256(8) == TWO_TO_64
  {
    assert Pow256(2) == 65536;
    assert Pow256(4) == 65536 * 65536;
    assert Pow256(6) == 65536 * 65536 * 65536;
  }

  // PutUint64 keeps the low 64 bits of the length.
  function Field(b: Bytes): Bytes {
    BigEndian(|b|, 8) + b
  }

  function Encode(fields: seq<Bytes>): Bytes {
    if fields == [] then [] else Field(fields[0]) + Encode(fields[1..])
  }

  function Decode(b: Bytes): Option<seq<Bytes>>
    decreases |b|
  {
    if b == [] then Some([])
    else if |b| < 8 then None
    else
      var n := FromBigEndian(b[..8]);
      if n < 0 || |b| < 8 + n then None
      else
        match Decode(b[8 + n..])
        case None => None
        case Some(rest) => Some([b[8..8 + n]] + rest)
  }

  /** The fields can be read back, so no two sequences of fields share an encoding. */
  lemma {:induction false} FieldsRoundTrip(fields: seq<Bytes>)
    requires forall f | f in fields :: |f| < TWO_TO_64
    ensures Decode(Encode(fields)) == Some(fields)
    decreases |fields|
  {
    if fields != [] {
      var f, rest := fields[0], Encode(fields[1..]);
      var b := Encode(fields);
      assert f in fields;
      EightBytes();
      BigEndianRoundTrip(|f|, 8);
      assert b[..8] == BigEndian(|f|, 8);
      assert b[8..8 + |f|] == f;
      assert b[8 + |f|..] == rest;
      FieldsRoundTrip(fields[1..]);
      assert fields == [f] + fields[1..];
    }
  }

  // ---------------------------------------------------------------------------------------
  // The pre-image.
  // ---------------------------------------------------------------------------------------

  function FieldsOf(keys: seq<string>, secrets: map<string, string>): seq<Bytes>
    requires forall k | k in keys :: k in secrets
  {
    if keys == [] then []
    else [ToBytes(keys[0]), ToBytes(secrets[keys[0]])] + FieldsOf(keys[1..], secrets)
  }

  // What is hashed when the keys come in this order.
  function Written(keys: seq<string>, secrets: map<string, string>): Bytes
    requires forall k | k in keys :: k in secrets
  {
    if keys == [] then []
    else Field(ToBytes(keys[0])) + Field(ToBytes(secrets[keys[0]])) + Written(keys[1..], secrets)
  }

  lemma {:induction false} WrittenIsEncoded(keys: seq<string>, secrets: map<string, string>)
    requires forall k | k in keys :: k in secrets
    ensures Written(keys, secrets) == Encode(FieldsOf(keys, secrets))
    decreases |keys|
  {
    if keys != [] {
      WrittenIsEncoded(keys[1..], secrets);
      EncodeTwo(ToBytes(keys[0]), ToBytes(secrets[keys[0]]), FieldsOf(keys[1..], secrets));
    }
  }

  lemma EncodeTwo(x: Bytes, y: Bytes, rest: seq<Bytes>)
    ensures Encode([x, y] + rest) == Field(x) + Field(y) + Encode(rest)
  {
    var fields := [x, y] + rest;
    assert fields[1..] == [y] + rest && ([y] + rest)[1..] == rest;
    assert Encode([y] + rest) == Field(y) + Encode(rest);
  }

  // A sorted enumeration of the keys of the map.
  predicate KeysInOrder(keys: seq<string>, secrets: map<string, string>) {
    Sorted(keys) && Distinct(keys) && KeySet(keys) == secrets.Keys
  }

  lemma KeysAreIn(keys: seq<string>, secrets: map<string, string>)
    requires KeySet(keys) == secrets.Keys
    ensures forall k | k in keys :: k in secrets
  {
    assert forall k | k in keys :: k in KeySet(keys);
  }

  predicate ShortFields(secrets: map<string, string>) {
    forall k | k in secrets :: |k| < TWO_TO_64 && |secrets[k]| < TWO_TO_64
  }

  lemma {:induction false} FieldsShort(keys: seq<string>, secrets: map<string, string>)
    requires (forall k | k in keys :: k in secrets) && ShortFields(secrets)
    ensures forall f | f in FieldsOf(keys, secrets) :: |f| < TWO_TO_64
    decreases |keys|
  {
    if keys != [] { FieldsShort(keys[1..], secrets); }
  }

  lemma {:induction false} FieldsDetermine(a: seq<string>, b: seq<string>, m: map<string, string>,
                                           n: map<string, string>)
    requires (forall k | k in a :: k in m) && (forall k | k in b :: k in n)
    requires FieldsOf(a, m) == FieldsOf(b, n)
    ensures a == b && forall k | k in a :: m[k] == n[k]
    decreases |a|
  {
    if a == [] || b == [] {
      FieldsLength(a, m);
      FieldsLength(b, n);
    } else {
      var f, g := FieldsOf(a, m), FieldsOf(b, n);
      assert f[0] == ToBytes(a[0]) && g[0] == ToBytes(b[0]);
      assert f[1] == ToBytes(m[a[0]]) && g[1] == ToBytes(n[b[0]]);
      assert f[2..] == FieldsOf(a[1..], m) && g[2..] == FieldsOf(b[1..], n);
      ToBytesInjective(a[0], b[0]);
      ToBytesInjective(m[a[0]], n[b[0]]);
      FieldsDetermine(a[1..], b[1..], m, n);
      assert a == [a[0]] + a[1..] && b == [b[0]] + b[1..];
    }
  }

  lemma {:induction false} FieldsLength(keys: seq<string>, secrets: map<string, string>)
    requires forall k | k in keys :: k in secrets
    ensures |FieldsOf(keys, secrets)| == 2 * |keys|
    decreases |keys|
  {
    if keys != [] { FieldsLength(keys[1..], secrets); }
  }

  // Reading the fields back recovers the map.
  lemma WrittenDetermines(a: map<string, string>, ka: seq<string>, b: map<string, string>, kb: seq<string>)
    requires (forall k | k in ka :: k in a) && (forall k | k in kb :: k in b)
    requires ShortFields(a) && ShortFields(b) && Written(ka, a) == Written(kb, b)
    ensures ka == kb && forall k | k in ka :: a[k] == b[k]
  {
    FieldsShort(ka, a);
    FieldsShort(kb, b);
    WrittenIsEncoded(ka, a);
    WrittenIsEncoded(kb, b);
    FieldsRoundTrip(FieldsOf(ka, a));
    FieldsRoundTrip(FieldsOf(kb, b));
    FieldsDetermine(ka, kb, a, b);
  }

  // The bytes that the sorted keys and their values are written as.
  ghost predicate IsPreImage(b: Bytes, secrets: map<string, string>) {
    exists keys :: KeysInOrder(keys, secrets) && IsWritten(keys, secrets, b)
  }

  predicate IsWritten(keys: seq<string>, secrets: map<string, string>, b: Bytes) {
    (forall k | k in keys :: k in secrets) && b == Written(keys, secrets)
  }

  /** Equal maps are written as equal bytes, whatever order their keys were iterated in, and
      different maps as different bytes. */
  lemma PreImageCanonical(a: map<string, string>, x: Bytes, b: map<string, string>, y: Bytes)
    requires IsPreImage(x, a) && IsPreImage(y, b) && ShortFields(a) && ShortFields(b)
    ensures x == y <==> a == b
  {
    var ka :| KeysInOrder(ka, a) && IsWritten(ka, a, x);
    var kb :| KeysInOrder(kb, b) && IsWritten(kb, b, y);
    if a == b {
      SortedUnique(ka, kb);
    }
    if x == y {
      WrittenDetermines(a, ka, b, kb);
      SameMap(a, b, ka);
    }
  }

  lemma SameMap(a: map<string, string>, b: map<string, string>, keys: seq<string>)
    requires KeySet(keys) == a.Keys == b.Keys
    requires forall k | k in keys :: k in a && k in b && a[k] == b[k]
    ensures a == b
  {
    forall k | k in a ensures a[k] == b[k] {
      assert k in KeySet(keys);
    }
  }

  // SHA-256 followed by hexadecimal printing.
  type Hash = Bytes -> string

  ghost predicate IsDigest(h: Hash, secrets: map<string, string>, digest: string) {
    if |secrets| == 0 then digest == "" else exists x :: IsPreImage(x, secrets) && digest == h(x)
  }

  // A printed digest has 64 digits, and the two sets at hand are not a collision.
  ghost predicate TellsApart(h: Hash, a: map<string, string>, b: map<string, string>) {
    && (forall x :: |h(x)| == 64)
    && (forall x, y | IsPreImage(x, a) && IsPreImage(y, b) && h(x) == h(y) :: x == y)
  }

  /** Without a collision, comparing digests is comparing maps; the digest "" of the empty map
      stands apart. */
  lemma DigestComparesMaps(h: Hash, a: map<string, string>, b: map<string, string>, da: string, db: string)
    requires TellsApart(h, a, b) && ShortFields(a) && ShortFields(b)
    requires IsDigest(h, a, da) && IsDigest(h, b, db)
    ensures da == db <==> a == b
  {
    if |a| > 0 && |b| > 0 {
      var x :| IsPreImage(x, a) && da == h(x);
      var y :| IsPreImage(y, b) && db == h(y);
      PreImageCanonical(a, x, b, y);
    } else {
      assert |a| == 0 ==> a == map[];
      assert |b| == 0 ==> b == map[];
    }
  }

  // ---------------------------------------------------------------------------------------
  // computeSecretsHash.
  // ---------------------------------------------------------------------------------------

  // The running hash: everything that was written to it.
  class HashWriter {
    var written: Bytes

    constructor ()
      ensures written == []
    {
      written := [];
    }

    method Write(b: Bytes)
      modifies this
      ensures written == old(written) + b
    {
      written := written + b;
    }
  }

  // binary.BigEndian.PutUint64(buf, n), one byte after the other from the last.
  method PutUint64(buf: array<int>, n: nat)
    requires buf.Length == 8
    modifies buf
    ensures buf[..] == BigEndian(n, 8)
  {
    var rest, i := n, 8;
    while i > 0
      invariant 0 <= i <= 8 && rest >= 0
      invariant BigEndian(rest, i) + buf[i..] == BigEndian(n, 8)
    {
      i := i - 1;
      ghost var tail := buf[i + 1..];
      buf[i] := rest % 256;
      assert buf[i..] == [rest % 256] + tail;
      rest := rest / 256;
    }
    assert buf[0..] == buf[..];
  }

  method WriteField(buf: array<int>, h: HashWriter, s: string)
    requires buf.Length == 8
    modifies buf, h
    ensures h.written == old(h.written) + Field(ToBytes(s))
  {
    PutUint64(buf, |s|);
    h.Write(buf[..]);
    h.Write(ToBytes(s));
  }

  // sort.Strings
  method SortStrings(keys: seq<string>) returns (sorted: seq<string>)
    requires Distinct(keys)
    ensures Sorted(sorted) && Distinct(sorted) && KeySet(sorted) == KeySet(keys)
  {
    sorted := [];
    for n := 0 to |keys|
      invariant Sorted(sorted) && Distinct(sorted)
      invariant KeySet(sorted) == KeySet(keys[..n])
    {
      var i := 0;
      while i < |sorted| && AtMost(sorted[i], keys[n])
        invariant 0 <= i <= |sorted|
        invariant forall j | 0 <= j < i :: AtMost(sorted[j], keys[n])
      {
        i := i + 1;
      }
      NewKey(keys, n, sorted);
      InsertKeepsOrder(sorted, i, keys[n]);
      sorted := sorted[..i] + [keys[n]] + sorted[i..];
      assert keys[..n + 1] == keys[..n] + [keys[n]];
    }
    assert keys[..|keys|] == keys;
  }

  lemma NewKey(keys: seq<string>, n: nat, sorted: seq<string>)
    requires n < |keys| && Distinct(keys) && KeySet(sorted) == KeySet(keys[..n])
    ensures keys[n] !in sorted
  {
    assert forall i | 0 <= i < n :: keys[..n][i] == keys[i];
    assert keys[n] !in KeySet(keys[..n]);
    assert keys[n] !in KeySet(sorted);
  }

  lemma InsertKeepsOrder(sorted: seq<string>, i: nat, key: string)
    requires Sorted(sorted) && Distinct(sorted) && key !in sorted && i <= |sorted|
    requires forall j | 0 <= j < i :: AtMost(sorted[j], key)
    requires i < |sorted| ==> !AtMost(sorted[i], key)
    ensures var next := sorted[..i] + [key] + sorted[i..];
      Sorted(next) && Distinct(next) && KeySet(next) == KeySet(sorted) + {key}
  {
    var next := sorted[..i] + [key] + sorted[i..];
    forall j | i <= j < |sorted|
      ensures AtMost(key, sorted[j])
    {
      AtMostTotal(key, sorted[i]);
      if i < j { AtMostTransitive(key, sorted[i], sorted[j]); }
    }
    SplitAt(sorted, i);
    forall p, q | 0 <= p < q < |next|
      ensures AtMost(next[p], next[q]) && next[p] != next[q]
    {
      if p == i {
        assert next[q] == sorted[q - 1] && sorted[q - 1] in sorted;
      } else if q == i {
        assert next[p] == sorted[p] && sorted[p] in sorted;
      }
    }
  }

  lemma SplitAt(sorted: seq<string>, i: nat)
    requires i <= |sorted|
    ensures forall key :: KeySet(sorted[..i] + [key] + sorted[i..]) == KeySet(sorted) + {key}
  {
    forall key ensures KeySet(sorted[..i] + [key] + sorted[i..]) == KeySet(sorted) + {key} {
      assert sorted == sorted[..i] + sorted[i..];
    }
  }

  // The keys, in whatever order the map is iterated.
  method CollectKeys(secrets: map<string, string>) returns (keys: seq<string>)
    ensures Distinct(keys) && KeySet(keys) == secrets.Keys
  {
    keys := [];
    var remaining := secrets.Keys;
    while remaining != {}
      invariant remaining <= secrets.Keys && Distinct(keys) && KeySet(keys) == secrets.Keys - remaining
      decreases remaining
    {
      var key :| key in remaining;
      assert key !in keys by { assert key !in KeySet(keys); }
      assert KeySet(keys + [key]) == KeySet(keys) + {key};
      keys := keys + [key];
      remaining := remaining - {key};
    }
  }

  method WriteFields(h: HashWriter, keys: seq<string>, secrets: map<string, string>)
    requires forall k | k in keys :: k in secrets
    modifies h
    ensures h.written == old(h.written) + Written(keys, secrets)
  {
    var lenBuf := new int[8];
    for n := 0 to |keys|
      invariant h.written + Written(keys[n..], secrets) == old(h.written) + Written(keys, secrets)
    {
      assert keys[n..][1..] == keys[n + 1..];
      Associate(h.written, Field(ToBytes(keys[n])), Field(ToBytes(secrets[keys[n]])), Written(keys[n + 1..], secrets));
      WriteField(lenBuf, h, keys[n]);
      WriteField(lenBuf, h, secrets[keys[n]]);
    }
  }

  lemma Associate(a: Bytes, b: Bytes, c: Bytes, d: Bytes)
    ensures a + (b + c + d) == a + b + c + d
  {
  }

  /** The digest of the map, whatever order the keys were found in. */
  method ComputeSecretsHash(secrets: map<string, string>, h: Hash) returns (digest: string)
    ensures IsDigest(h, secrets, digest)
  {
    if |secrets| == 0 { return ""; }
    var keys := CollectKeys(secrets);
    keys := SortStrings(keys);
    KeysAreIn(keys, secrets);
    var hash := new HashWriter();
    WriteFields(hash, keys, secrets);
    digest := h(hash.written);
    assert IsWritten(keys, secrets, hash.written);
  }
}

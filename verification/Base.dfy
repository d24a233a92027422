/** Small datatypes shared by every module of the model. */
module Wrappers {

  datatype Option<+T> = None | Some(value: T)

  datatype Result<+T, +E> = Success(value: T) | Failure(error: E)
}

/** File contents and the size/hash test the whole library relies on. */
module Contents {
  import opened Wrappers

  newtype Byte = x: int | 0 <= x < 256

  type Bytes = seq<Byte>

  datatype HashAlgorithm = Sha1 | Sha256

  /** A digest. Hashing is modelled as injective: a digest carries the bytes it was taken from. */
  datatype FileHash = FileHash(algorithm: HashAlgorithm, preimage: Bytes)

  function Digest(algorithm: HashAlgorithm, bytes: Bytes): FileHash {
    FileHash(algorithm, bytes)
  }

  /** Whether `verify_file` accepts `bytes` for an optional size and an optional hash. */
  predicate Matches(bytes: Bytes, size: Option<nat>, hash: Option<FileHash>) {
    && (size.Some? ==> size.value == |bytes|)
    && (hash.Some? ==> Digest(hash.value.algorithm, bytes) == hash.value)
  }
}

/** Strings in the byte order that ordered maps and sorted lists of the library use. */
module Ordering {

  /** Lexicographic "at or before". */
  predicate AtOrBefore(a: string, b: string) {
    a == [] || (b != [] && (a[0] < b[0] || (a[0] == b[0] && AtOrBefore(a[1..], b[1..]))))
  }

  lemma {:induction false} Total(a: string, b: string)
    ensures AtOrBefore(a, b) || AtOrBefore(b, a)
  {
    if a != [] && b != [] && a[0] == b[0] {
      Total(a[1..], b[1..]);
    }
  }

  lemma {:induction false} Antisymmetric(a: string, b: string)
    requires AtOrBefore(a, b) && AtOrBefore(b, a)
    ensures a == b
  {
    if a != [] && b != [] {
      Antisymmetric(a[1..], b[1..]);
      assert a == [a[0]] + a[1..] && b == [b[0]] + b[1..];
    }
  }

  lemma {:induction false} Transitive(a: string, b: string, c: string)
    requires AtOrBefore(a, b) && AtOrBefore(b, c)
    ensures AtOrBefore(a, c)
  {
    if a != [] && a[0] == b[0] == c[0] {
      Transitive(a[1..], b[1..], c[1..]);
    }
  }

  predicate IsLeast(m: string, s: set<string>) {
    m in s && forall x :: x in s ==> AtOrBefore(m, x)
  }

  lemma {:induction false} LeastExists(s: set<string>)
    requires s != {}
    ensures exists m :: IsLeast(m, s)
    decreases |s|
  {
    var x :| x in s;
    if s == {x} {
      Total(x, x);
      assert IsLeast(x, s);
    } else {
      LeastExists(s - {x});
      var m :| IsLeast(m, s - {x});
      Total(m, x);
      if AtOrBefore(m, x) {
        assert IsLeast(m, s);
      } else {
        forall y | y in s ensures AtOrBefore(x, y) {
          if y != x { Transitive(x, m, y); } else { Total(x, x); }
        }
        assert IsLeast(x, s);
      }
    }
  }

  function Least(s: set<string>): (m: string)
    requires s != {}
    ensures IsLeast(m, s)
  {
    LeastExists(s);
    assert forall a, b :: IsLeast(a, s) && IsLeast(b, s) ==> a == b by {
      forall a, b | IsLeast(a, s) && IsLeast(b, s) ensures a == b { Antisymmetric(a, b); }
    }
    var m :| m in s && IsLeast(m, s);
    m
  }

  ghost predicate Distinct<T>(xs: seq<T>) {
    forall i, j :: 0 <= i < j < |xs| ==> xs[i] != xs[j]
  }

  /** The members of a set in ascending order: how an ordered map or set iterates. */
  function Ascending(s: set<string>): (r: seq<string>)
    ensures forall x :: x in r <==> x in s
    ensures Distinct(r)
    ensures |r| == |s|
    decreases |s|
  {
    if s == {} then [] else
      var m := Least(s);
      [m] + Ascending(s - {m})
  }

  lemma {:induction false} AscendingIsSorted(s: set<string>, i: nat, j: nat)
    requires i < j < |s|
    ensures AtOrBefore(Ascending(s)[i], Ascending(s)[j])
    decreases |s|
  {
    var m := Least(s);
    var rest := Ascending(s - {m});
    assert Ascending(s) == [m] + rest;
    if i == 0 {
      var x := rest[j - 1];
      assert x in rest;
      assert x in s;
    } else {
      AscendingIsSorted(s - {m}, i - 1, j - 1);
    }
  }
}

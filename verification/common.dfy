/** Shared building blocks: failure-compatible wrappers, sequence flattening,
    fixed-size chunking (the `for (i = 0; i < n; i += size) slice(i, i + size)`
    idiom every store writer in the system uses), and the decimal rendering of
    a natural number that JavaScript template literals perform. */
module Common {

  /** JavaScript's `undefined` versus a present value. */
  datatype Option<+T> = None | Some(value: T) {
    function GetOr(default: T): T {
      match this
      case Some(v) => v
      case None => default
    }
  }

  /** A value or the error that the source would throw. */
  datatype Result<+T, +E> = Ok(value: T) | Err(error: E)

  /** The most requests one batch write to the store may carry. */
  const BatchWriteLimit: nat := 25

  /** Property access `obj[name]` on an object of string properties:
      `undefined` when the property is absent. */
  function Lookup(obj: map<string, string>, name: string): (v: Option<string>)
    ensures v.Some? <==> name in obj
    ensures v.Some? ==> v.value == obj[name]
  {
    if name in obj then Some(obj[name]) else None
  }

  function Min(a: int, b: int): int { if a <= b then a else b }

  function Max(a: int, b: int): int { if a >= b then a else b }

  /** 2^n. */
  function Pow2(n: nat): (r: nat)
    ensures r >= 1
  {
    if n == 0 then 1 else 2 * Pow2(n - 1)
  }

  /** Concatenation of a sequence of sequences, in order. */
  function Flatten<T>(xss: seq<seq<T>>): seq<T>
  {
    if |xss| == 0 then [] else xss[0] + Flatten(xss[1..])
  }

  lemma {:induction false} FlattenAppend<T>(a: seq<seq<T>>, b: seq<seq<T>>)
    ensures Flatten(a + b) == Flatten(a) + Flatten(b)
    decreases |a|
  {
    if |a| == 0 {
      assert a + b == b;
    } else {
      assert (a + b)[1..] == a[1..] + b;
      FlattenAppend(a[1..], b);
    }
  }

  /** Flattening a sequence extended by one element. */
  lemma FlattenSnoc<T>(a: seq<seq<T>>, x: seq<T>)
    ensures Flatten(a + [x]) == Flatten(a) + x
  {
    FlattenAppend(a, [x]);
    assert Flatten([x]) == x + Flatten([x][1..]);
  }

  lemma {:induction false} InFlatten<T>(xss: seq<seq<T>>, b: nat, x: T)
    requires b < |xss| && x in xss[b]
    ensures x in Flatten(xss)
  {
    if b == 0 {
      assert Flatten(xss) == xss[0] + Flatten(xss[1..]);
    } else {
      InFlatten(xss[1..], b - 1, x);
      assert Flatten(xss) == xss[0] + Flatten(xss[1..]);
    }
  }

  /** Every element of `r` lies within 1..size, and all but the last are full. */
  ghost predicate WellChunked<T>(r: seq<seq<T>>, size: nat)
  {
    && (forall i :: 0 <= i < |r| ==> 0 < |r[i]| <= size)
    && (forall i :: 0 <= i < |r| - 1 ==> |r[i]| == size)
  }

  /** The consecutive slices `s[i..i+size]` for i = 0, size, 2*size, ...;
      the last one may be shorter. */
  function Chunks<T>(s: seq<T>, size: nat): (r: seq<seq<T>>)
    requires size > 0
    ensures Flatten(r) == s
    ensures WellChunked(r, size)
    ensures |s| <= |r| * size
    ensures |r| == 0 || (|r| - 1) * size < |s|
    decreases |s|
  {
    if |s| == 0 then []
    else if |s| <= size then [s]
    else
      var tail := Chunks(s[size..], size);
      assert ([s[..size]] + tail)[1..] == tail;
      [s[..size]] + tail
  }

  /** With the batch write limit of 25 the chunk count is ceil(n / 25). */
  lemma ChunkCount<T>(s: seq<T>)
    ensures |Chunks(s, BatchWriteLimit)| == (|s| + 24) / 25
  {
  }

  /** The first `f` chunks hold exactly the first `f * size` elements. */
  lemma {:induction false} ChunksPrefix<T>(s: seq<T>, size: nat, f: nat)
    requires size > 0 && f <= |Chunks(s, size)|
    ensures f < |Chunks(s, size)| ==> f * size < |s| && Flatten(Chunks(s, size)[..f]) == s[..f * size]
    decreases f
  {
    var r := Chunks(s, size);
    if f == 0 {
      assert f * size == 0 && r[..0] == [];
    } else if f < |r| {
      var tail := Chunks(s[size..], size);
      assert r == [s[..size]] + tail by { assert |s| > size; }
      ChunksPrefix(s[size..], size, f - 1);
      var m := (f - 1) * size;
      assert m + size == f * size by { MulSucc(f - 1, size); }
      assert Flatten(r[..f]) == s[..size] + Flatten(tail[..f - 1]) by {
        assert r[..f] == [s[..size]] + tail[..f - 1];
      }
      assert s[..size] + s[size..][..m] == s[..m + size];
    }
  }

  lemma MulSucc(a: nat, b: int)
    ensures a * b + b == (a + 1) * b
  {
  }

  /** A well-chunked split of `s` is the split `Chunks` computes: the chunking
      of a request list is determined by its concatenation and the size bound. */
  lemma {:induction false} ChunksUnique<T>(r: seq<seq<T>>, s: seq<T>, size: nat)
    requires size > 0
    requires Flatten(r) == s && WellChunked(r, size)
    ensures r == Chunks(s, size)
    decreases |r|
  {
    if |r| == 0 {
    } else if |r| == 1 {
      assert Flatten(r) == r[0] + Flatten(r[1..]);
      assert s == r[0];
    } else {
      assert Flatten(r) == r[0] + Flatten(r[1..]);
      assert |r[0]| == size;
      assert |Flatten(r[1..])| > 0 by {
        assert Flatten(r[1..]) == r[1] + Flatten(r[2..]);
      }
      assert s[..size] == r[0];
      assert s[size..] == Flatten(r[1..]);
      assert WellChunked(r[1..], size) by {
        forall i | 0 <= i < |r[1..]| ensures 0 < |r[1..][i]| <= size {
          assert r[1..][i] == r[i + 1];
        }
        forall i | 0 <= i < |r[1..]| - 1 ensures |r[1..][i]| == size {
          assert r[1..][i] == r[i + 1];
        }
      }
      ChunksUnique(r[1..], s[size..], size);
      assert r == [r[0]] + r[1..];
    }
  }

  /** The character of decimal digit d. */
  function DigitChar(d: nat): (c: char)
    requires d < 10
    ensures '0' <= c <= '9'
  {
    (48 + d) as char
  }

  /** The decimal rendering `${n}` of a natural number, without leading zeros. */
  function NatToString(n: nat): (s: string)
    ensures |s| >= 1
    ensures n >= 10 <==> |s| >= 2
    ensures forall i :: 0 <= i < |s| ==> '0' <= s[i] <= '9'
    ensures s[|s| - 1] == DigitChar(n % 10)
  {
    if n < 10 then [DigitChar(n)] else NatToString(n / 10) + [DigitChar(n % 10)]
  }

  /** Distinct numbers render differently, so placeholders such as `#field{i}`
      built from distinct indices never collide. */
  lemma {:induction false} NatToStringInjective(a: nat, b: nat)
    requires NatToString(a) == NatToString(b)
    ensures a == b
    decreases a
  {
    var s := NatToString(a);
    assert DigitChar(a % 10) == DigitChar(b % 10);
    assert a % 10 == b % 10;
    if a >= 10 {
      assert b >= 10;
      assert NatToString(a / 10) == s[..|s| - 1] == NatToString(b / 10);
      NatToStringInjective(a / 10, b / 10);
    } else {
      assert b < 10;
    }
  }

  /** `prefix + x == prefix + y` only when x == y. */
  lemma PrefixCancel<T>(p: seq<T>, x: seq<T>, y: seq<T>)
    requires p + x == p + y
    ensures x == y
  {
    assert x == (p + x)[|p|..];
    assert y == (p + y)[|p|..];
  }

  /** `parts` joined by `sep`, as `Array.prototype.join` does. */
  function Join(parts: seq<string>, sep: string): (r: string)
    ensures |parts| == 0 ==> r == ""
    ensures |parts| > 0 ==> parts[0] <= r
    ensures |parts| > 0 ==> |r| == TotalLength(parts) + (|parts| - 1) * |sep|
  {
    if |parts| == 0 then ""
    else if |parts| == 1 then parts[0]
    else Join(parts[..|parts| - 1], sep) + sep + parts[|parts| - 1]
  }

  /** The summed lengths of `parts`. */
  function TotalLength(parts: seq<string>): nat
  {
    if |parts| == 0 then 0 else TotalLength(parts[..|parts| - 1]) + |parts[|parts| - 1]|
  }
}

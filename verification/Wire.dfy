/** Numbers on the wire: big-endian for the protocol, little-endian inside ELF images. */
module Wire {
  import opened Bytes

  /** Number of values of `n` bytes. */
  function Pow(n: nat): (r: nat)
    ensures r >= 1
  {
    if n == 0 then 1 else 256 * Pow(n - 1)
  }

  lemma PowSizes()
    ensures Pow(1) == 256 && Pow(2) == TWO16 && Pow(4) == TWO32 && Pow(8) == TWO64
  {
    assert Pow(1) == 256 * Pow(0);
    assert Pow(2) == 256 * Pow(1);
    assert Pow(3) == 256 * Pow(2);
    assert Pow(4) == 256 * Pow(3);
    assert Pow(5) == 256 * Pow(4);
    assert Pow(6) == 256 * Pow(5);
    assert Pow(7) == 256 * Pow(6);
    assert Pow(8) == 256 * Pow(7);
  }

  /** The `n` low bytes of a number, most significant first. */
  function Big(n: nat, v: nat): (r: seq<byte>)
    ensures |r| == n
  {
    if n == 0 then [] else Big(n - 1, v / 256) + [v % 256]
  }

  function FromBig(s: seq<byte>): nat
  {
    if s == [] then 0 else FromBig(s[..|s| - 1]) * 256 + s[|s| - 1]
  }

  /** The `n` low bytes of a number, least significant first. */
  function Little(n: nat, v: nat): (r: seq<byte>)
    ensures |r| == n
  {
    if n == 0 then [] else [v % 256] + Little(n - 1, v / 256)
  }

  function FromLittle(s: seq<byte>): nat
  {
    if s == [] then 0 else s[0] + 256 * FromLittle(s[1..])
  }

  /** A little-endian number of `n` bytes at `pos`. */
  function Le(s: seq<byte>, pos: nat, n: nat): nat
    requires pos + n <= |s|
  {
    FromLittle(s[pos..pos + n])
  }

  lemma {:induction false} BigRoundTrip(n: nat, v: nat)
    requires v < Pow(n)
    ensures FromBig(Big(n, v)) == v
  {
    if n > 0 {
      BigRoundTrip(n - 1, v / 256);
      assert Big(n, v)[..n - 1] == Big(n - 1, v / 256);
    }
  }

  lemma {:induction false} FromBigRoundTrip(s: seq<byte>)
    ensures FromBig(s) < Pow(|s|) && Big(|s|, FromBig(s)) == s
  {
    if s != [] {
      FromBigRoundTrip(s[..|s| - 1]);
      assert FromBig(s) / 256 == FromBig(s[..|s| - 1]) && FromBig(s) % 256 == s[|s| - 1];
    }
  }

  lemma {:induction false} LittleRoundTrip(n: nat, v: nat)
    requires v < Pow(n)
    ensures FromLittle(Little(n, v)) == v
  {
    if n > 0 {
      LittleRoundTrip(n - 1, v / 256);
      assert Little(n, v)[1..] == Little(n - 1, v / 256);
    }
  }

  lemma {:induction false} FromLittleRoundTrip(s: seq<byte>)
    ensures FromLittle(s) < Pow(|s|) && Little(|s|, FromLittle(s)) == s
  {
    if s != [] {
      FromLittleRoundTrip(s[1..]);
      assert FromLittle(s) / 256 == FromLittle(s[1..]) && FromLittle(s) % 256 == s[0];
    }
  }

  // ---------------------------------------------------------------------
  // Cursors
  // ---------------------------------------------------------------------

  /** A number of `n` bytes at `pos`, if the input holds that many. */
  function Take(s: seq<byte>, pos: nat, n: nat): Option<nat>
  {
    if pos > |s| || |s| - pos < n then None else Some(FromBig(s[pos..pos + n]))
  }

  /** Reading back what was written, wherever it stands. */
  lemma TakeWritten(before: seq<byte>, n: nat, v: nat, after: seq<byte>)
    requires v < Pow(n)
    ensures Take(before + Big(n, v) + after, |before|, n) == Some(v)
  {
    var s := before + Big(n, v) + after;
    assert s[|before|..|before| + n] == Big(n, v);
    BigRoundTrip(n, v);
  }

  /** What was read is what stands there. */
  lemma TakenStands(s: seq<byte>, pos: nat, n: nat)
    requires Take(s, pos, n).Some?
    ensures Take(s, pos, n).value < Pow(n) && pos + n <= |s| && s[pos..pos + n] == Big(n, Take(s, pos, n).value)
  {
    FromBigRoundTrip(s[pos..pos + n]);
  }

  // ---------------------------------------------------------------------
  // Parts of an input
  // ---------------------------------------------------------------------

  /** `s` holds `e` at `pos`. */
  ghost predicate Stands(s: seq<byte>, pos: nat, e: seq<byte>)
  {
    pos + |e| <= |s| && s[pos..pos + |e|] == e
  }

  lemma StandsParts(s: seq<byte>, pos: nat, a: seq<byte>, b: seq<byte>)
    requires Stands(s, pos, a + b)
    ensures Stands(s, pos, a) && Stands(s, pos + |a|, b)
  {
    assert s[pos..pos + |a|] == (a + b)[..|a|];
    assert s[pos + |a|..pos + |a| + |b|] == (a + b)[|a|..];
  }

  lemma StandsNumber(s: seq<byte>, pos: nat, width: nat, n: nat)
    requires Stands(s, pos, Big(width, n)) && n < Pow(width)
    ensures Take(s, pos, width) == Some(n)
  {
    BigRoundTrip(width, n);
  }

  /** Words one after the other. */
  function Words(ws: seq<u32>): (r: seq<byte>)
    ensures |r| == 4 * |ws|
  {
    if ws == [] then [] else Words(ws[..|ws| - 1]) + Big(4, ws[|ws| - 1])
  }

  function WordAt(s: seq<byte>, i: nat): u32
    requires 4 * i + 4 <= |s|
  {
    PowSizes();
    FromBigRoundTrip(s[4 * i..4 * i + 4]);
    FromBig(s[4 * i..4 * i + 4])
  }

  lemma {:induction false} WordsAt(ws: seq<u32>, i: nat)
    requires i < |ws|
    ensures WordAt(Words(ws), i) == ws[i]
  {
    var n := |ws| - 1;
    var less := Words(ws[..n]);
    if i < n {
      WordsAt(ws[..n], i);
      assert Words(ws)[4 * i..4 * i + 4] == less[4 * i..4 * i + 4];
    } else {
      PowSizes();
      BigRoundTrip(4, ws[n]);
      assert Words(ws)[4 * n..4 * n + 4] == Big(4, ws[n]);
    }
  }
}

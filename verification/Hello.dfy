/** The HELLO exchange: eleven fixed words and up to 32 capability numbers, all big-endian. */
module Hello {
  import opened Bytes
  import opened Wire

  const MAGIC: nat := 0x4352_5839
  const VERSION: nat := 3
  const SCHEMA_VERSION: nat := 1
  const FIXED: nat := 11
  const MAX_CAPABILITIES: nat := 32

  datatype Hello = Hello(major: u32, minor: u32, patch: u32, backend: u32, backendVersion: u32,
                         devices: u32, profile: u32, capabilities: seq<u32>)

  function FixedWords(h: Hello, count: u32): (ws: seq<u32>)
    ensures |ws| == FIXED
  {
    [MAGIC, VERSION, SCHEMA_VERSION, h.major, h.minor, h.patch, h.backend, h.backendVersion, h.devices, h.profile, count]
  }

  function Encode(h: Hello): Option<seq<byte>>
  {
    if |h.capabilities| > MAX_CAPABILITIES then None
    else Some(Words(FixedWords(h, |h.capabilities|) + h.capabilities))
  }

  /** The number of capabilities a message announces. */
  function Count(s: seq<byte>): u32
    requires 4 * FIXED <= |s|
  {
    WordAt(s, 10)
  }

  /** The fixed words are as expected, there is a device, and the length is exactly that of the announced list. */
  predicate Framed(s: seq<byte>)
  {
    && 4 * FIXED <= |s| <= 4 * (FIXED + MAX_CAPABILITIES)
    && WordAt(s, 0) == MAGIC && WordAt(s, 1) == VERSION && WordAt(s, 2) == SCHEMA_VERSION
    && WordAt(s, 8) != 0 && Count(s) <= MAX_CAPABILITIES && |s| == 4 * (FIXED + Count(s))
  }

  function CapabilityAt(s: seq<byte>, i: nat): u32
    requires Framed(s) && i < Count(s)
  {
    WordAt(s, FIXED + i)
  }

  /** The first `n` capabilities are nonzero and all different. */
  predicate Sound(s: seq<byte>, n: nat)
    requires Framed(s) && n <= Count(s)
  {
    && (forall i :: 0 <= i < n ==> CapabilityAt(s, i) != 0)
    && (forall i, j :: 0 <= i < j < n ==> CapabilityAt(s, i) != CapabilityAt(s, j))
  }

  function Parsed(s: seq<byte>): Hello
    requires Framed(s)
  {
    Hello(WordAt(s, 3), WordAt(s, 4), WordAt(s, 5), WordAt(s, 6), WordAt(s, 7), WordAt(s, 8), WordAt(s, 9),
          seq(Count(s), i requires 0 <= i < Count(s) => CapabilityAt(s, i)))
  }

  function Decode(s: seq<byte>): Option<Hello>
  {
    if Framed(s) && Sound(s, Count(s)) then Some(Parsed(s)) else None
  }

  lemma {:induction false} WordsOf(s: seq<byte>, ws: seq<u32>)
    requires |s| == 4 * |ws| && forall i: nat :: i < |ws| ==> ws[i] == WordAt(s, i)
    ensures Words(ws) == s
    decreases |ws|
  {
    if ws != [] {
      var n := |ws| - 1;
      var t := s[..4 * n];
      forall i: nat | i < n ensures ws[..n][i] == WordAt(t, i) {
        assert t[4 * i..4 * i + 4] == s[4 * i..4 * i + 4];
      }
      WordsOf(t, ws[..n]);
      FromBigRoundTrip(s[4 * n..4 * n + 4]);
      assert ws[n] == WordAt(s, n);
      assert s == t + s[4 * n..4 * n + 4];
    }
  }

  // ---------------------------------------------------------------------
  // Both directions
  // ---------------------------------------------------------------------

  /** A greeting the decoder accepts: a device, and nonzero distinct capabilities. */
  predicate Good(h: Hello)
  {
    && h.devices != 0 && |h.capabilities| <= MAX_CAPABILITIES
    && (forall i :: 0 <= i < |h.capabilities| ==> h.capabilities[i] != 0)
    && (forall i, j :: 0 <= i < j < |h.capabilities| ==> h.capabilities[i] != h.capabilities[j])
  }

  lemma EncodedWords(h: Hello)
    requires |h.capabilities| <= MAX_CAPABILITIES
    ensures
      var s := Encode(h).value;
      && |s| == 4 * (FIXED + |h.capabilities|)
      && (forall i: nat :: i < FIXED ==> WordAt(s, i) == FixedWords(h, |h.capabilities|)[i])
      && (forall i: nat :: i < |h.capabilities| ==> WordAt(s, FIXED + i) == h.capabilities[i])
  {
    var ws := FixedWords(h, |h.capabilities|) + h.capabilities;
    forall i: nat | i < |ws| ensures WordAt(Words(ws), i) == ws[i] {
      WordsAt(ws, i);
    }
    forall i: nat | i < |h.capabilities| ensures WordAt(Words(ws), FIXED + i) == h.capabilities[i] {
      assert ws[FIXED + i] == h.capabilities[i];
    }
  }

  lemma EncodedFrame(h: Hello)
    requires |h.capabilities| <= MAX_CAPABILITIES
    ensures Framed(Encode(h).value) <==> h.devices != 0
    ensures Framed(Encode(h).value) ==> Count(Encode(h).value) == |h.capabilities| && Parsed(Encode(h).value) == h
    ensures Framed(Encode(h).value) ==>
              forall i: nat :: i < |h.capabilities| ==> CapabilityAt(Encode(h).value, i) == h.capabilities[i]
  {
    EncodedWords(h);
    hide Encode, WordAt;
    var s := Encode(h).value;
    assert WordAt(s, 0) == MAGIC && WordAt(s, 1) == VERSION && WordAt(s, 2) == SCHEMA_VERSION;
    assert WordAt(s, 3) == h.major && WordAt(s, 4) == h.minor && WordAt(s, 5) == h.patch;
    assert WordAt(s, 6) == h.backend && WordAt(s, 7) == h.backendVersion;
    assert WordAt(s, 8) == h.devices && WordAt(s, 9) == h.profile && WordAt(s, 10) == |h.capabilities|;
    if h.devices != 0 {
      assert Framed(s);
      assert Parsed(s).capabilities == h.capabilities;
    }
  }

  /** A greeting survives the round trip exactly when it is good. */
  lemma DecodeInvertsEncode(h: Hello)
    requires |h.capabilities| <= MAX_CAPABILITIES
    ensures Encode(h).Some?
    ensures Good(h) <==> Decode(Encode(h).value) == Some(h)
    ensures !Good(h) ==> Decode(Encode(h).value) == None
  {
    EncodedFrame(h);
    hide Encode, Parsed, Framed, Count, CapabilityAt, FixedWords;
    var s := Encode(h).value;
    if h.devices != 0 {
      assert Sound(s, Count(s)) <==> Good(h);
    }
  }

  /** Every accepted message is good and is the encoding of what it decodes to. */
  lemma AcceptedReencodes(s: seq<byte>)
    requires Decode(s).Some?
    ensures Good(Decode(s).value) && Encode(Decode(s).value) == Some(s)
  {
    hide WordAt, Words;
    var h := Decode(s).value;
    var ws := FixedWords(h, |h.capabilities|) + h.capabilities;
    forall i: nat | i < |ws| ensures ws[i] == WordAt(s, i) {
      if i >= FIXED {
        assert ws[i] == h.capabilities[i - FIXED] == CapabilityAt(s, i - FIXED);
      }
    }
    WordsOf(s, ws);
  }

  // ---------------------------------------------------------------------
  // The decoder's loops
  // ---------------------------------------------------------------------

  method DecodeFrom(s: seq<byte>) returns (r: Option<Hello>)
    ensures r == Decode(s)
  {
    if !Framed(s) { return None; }
    var n := Count(s);
    for i := 0 to n
      invariant Sound(s, i)
    {
      var c := CapabilityAt(s, i);
      if c == 0 { return None; }
      for j := 0 to i
        invariant forall k :: 0 <= k < j ==> CapabilityAt(s, k) != c
      {
        if CapabilityAt(s, j) == c { return None; }
      }
    }
    return Some(Parsed(s));
  }
}

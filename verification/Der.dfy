/** DER encoding of an ECDSA signature (`_sig_to_der` of u2f.c). */
module Der {
  import opened Types

  const MAX_SIG_LEN := 72
  const TAG_SEQUENCE: byte := 0x30
  const TAG_INTEGER: byte := 0x02

  /** A big-endian number without its leading zero bytes. */
  function Strip(x: seq<byte>): (r: seq<byte>)
    ensures |r| <= |x|
    ensures r != [] ==> r[0] != 0
  {
    if x != [] && x[0] == 0 then Strip(x[1..]) else x
  }

  predicate IsZero(x: seq<byte>) {
    Strip(x) == []
  }

  /** The content bytes the encoder emits. `next` is the byte after x, which it looks at when x is
      zero. */
  function Content(x: seq<byte>, next: byte): (r: seq<byte>)
    ensures |r| <= |x| + 1
  {
    var t := Strip(x);
    (if (if t == [] then next else t[0]) >= 0x80 then [0] else []) + t
  }

  function Integer(content: seq<byte>): seq<byte>
    requires |content| < 0x80
  {
    [TAG_INTEGER, |content|] + content
  }

  /** `after` is the byte that follows the signature in memory. */
  function Encode(sig: seq<byte>, after: byte): seq<byte>
    requires |sig| == 64
  {
    var body := Integer(Content(sig[..32], sig[32])) + Integer(Content(sig[32..], after));
    [TAG_SEQUENCE, |body|] + body
  }

  // A decoder written from section 8.3 of ITU-T X.690 and the DER rules, not from the encoder

  /** A definite-length INTEGER that is non-negative, minimal and fits 32 bytes, and what follows. */
  function DecodeInteger(d: seq<byte>): Option<(seq<byte>, seq<byte>)> {
    if |d| < 3 || d[0] != TAG_INTEGER || d[1] == 0 || d[1] >= 0x80 || |d| < 2 + d[1] then None
    else
      var c := d[2..2 + d[1]];
      if c[0] >= 0x80 || (|c| > 1 && c[0] == 0 && c[1] < 0x80) || |Strip(c)| > 32 then None
      else Some((Zeros(32 - |Strip(c)|) + Strip(c), d[2 + d[1]..]))
  }

  function Decode(d: seq<byte>): Option<(seq<byte>, seq<byte>)> {
    if |d| < 2 || d[0] != TAG_SEQUENCE || d[1] >= 0x80 || |d| != 2 + d[1] then None
    else
      match DecodeInteger(d[2..])
      case None => None
      case Some((r, rest)) =>
        match DecodeInteger(rest)
        case None => None
        case Some((s, end)) => if end == [] then Some((r, s)) else None
  }

  lemma {:induction false} StripPads(x: seq<byte>)
    ensures Zeros(|x| - |Strip(x)|) + Strip(x) == x
  {
    if x != [] && x[0] == 0 {
      StripPads(x[1..]);
      assert Zeros(|x| - |Strip(x)|) == [0] + Zeros(|x[1..]| - |Strip(x)|);
    }
  }

  lemma StripContent(x: seq<byte>, next: byte)
    ensures Strip(Content(x, next)) == Strip(x)
  {
    var t := Strip(x);
    if t != [] && t[0] >= 0x80 {
      assert ([0] + t)[1..] == t;
    }
  }

  /** The decoder takes an encoded integer back, unless its content came out empty. */
  lemma IntegerRoundTrip(x: seq<byte>, next: byte, rest: seq<byte>)
    requires |x| == 32
    ensures DecodeInteger(Integer(Content(x, next)) + rest) ==
            if IsZero(x) && next < 0x80 then None else Some((x, rest))
  {
    var c := Content(x, next);
    var d := Integer(c) + rest;
    StripPads(x);
    StripContent(x, next);
    assert d[1] == |c|;
    if c != [] {
      assert d[2..2 + d[1]] == c;
      assert d[2 + d[1]..] == rest;
    } else {
      assert IsZero(x);
    }
  }

  /** For every signature the encoding fits its buffer, and it is well-formed DER for exactly (R, S) if
      and only if each of them is non-zero or followed by a byte with its top bit set. */
  lemma EncodeRoundTrip(sig: seq<byte>, after: byte)
    requires |sig| == 64
    ensures |Encode(sig, after)| <= MAX_SIG_LEN
    ensures Decode(Encode(sig, after)) ==
            if (IsZero(sig[..32]) && sig[32] < 0x80) || (IsZero(sig[32..]) && after < 0x80) then None
            else Some((sig[..32], sig[32..]))
  {
    var r, s := Integer(Content(sig[..32], sig[32])), Integer(Content(sig[32..], after));
    IntegerRoundTrip(sig[..32], sig[32], s);
    IntegerRoundTrip(sig[32..], after, []);
    assert s + [] == s;
    assert Encode(sig, after)[2..] == r + s;
  }

  // The C code

  /** The index of the first non-zero byte of a number, or of the byte after it, which the loop reads
      before it checks its bound. So the memory is the signature and one byte more. */
  method SkipZeros(memory: seq<byte>, lo: nat) returns (i: nat)
    requires |memory| == 65 && lo in {0, 32}
    ensures lo <= i <= lo + 32 && memory[i..lo + 32] == Strip(memory[lo..lo + 32])
  {
    i := lo;
    while memory[i] == 0 && i < lo + 32
      invariant lo <= i <= lo + 32
      invariant Strip(memory[lo..lo + 32]) == Strip(memory[i..lo + 32])
    {
      assert memory[i..lo + 32][1..] == memory[i + 1..lo + 32];
      i := i + 1;
    }
  }

  /** Copies sig[i..stop] to the output at p, counting every byte in der[len]. */
  method CopyNumber(sig: seq<byte>, first: nat, stop: nat, der: array<byte>, len: nat, p: nat)
    requires first <= stop <= |sig| && len < p && p + (stop - first) <= der.Length && der[len] + (stop - first) < 0x100
    modifies der
    ensures der[..p + (stop - first)] == old(der[..p])[len := old(der[len]) + (stop - first)] + sig[first..stop]
  {
    var i, q := first, p;
    while i < stop
      invariant first <= i <= stop && q == p + (i - first) && der[len] == old(der[len]) + (i - first)
      invariant forall j | 0 <= j < p && j != len :: der[j] == old(der[j])
      invariant der[p..q] == sig[first..i]
    {
      ghost var done := der[p..q];
      der[q] := sig[i];
      der[len] := der[len] + 1;
      assert der[p..q + 1] == done + [sig[i]] == sig[first..i + 1];
      q := q + 1;
      i := i + 1;
    }
    assert der[..q] == der[..p] + der[p..q];
  }

  /** Tag, length and sign byte first, then the number, with the length counted up: an INTEGER. */
  lemma HeadThenNumber(prefix: seq<byte>, x: seq<byte>, next: byte, head: seq<byte>)
    requires |x| == 32
    requires head == if (if IsZero(x) then next else Strip(x)[0]) >= 0x80 then [TAG_INTEGER, 1, 0] else [TAG_INTEGER, 0]
    ensures (prefix + head)[|prefix| + 1 := head[1] + |Strip(x)|] + Strip(x) == prefix + Integer(Content(x, next))
  {
  }

  /** Tag, length and, for a number with its top bit set, the zero byte that keeps it positive. */
  method PutHead(der: array<byte>, start: nat, zero: bool) returns (p: nat)
    requires start + 3 <= der.Length
    modifies der
    ensures
      var head := if zero then [TAG_INTEGER, 1, 0] else [TAG_INTEGER, 0];
      p == start + |head| && der[..p] == old(der[..start]) + head
  {
    p := start;
    der[p] := TAG_INTEGER;
    p := p + 1;
    der[p] := 0;
    var len := p;
    p := p + 1;
    if zero {
      der[p] := 0;
      p := p + 1;
      der[len] := der[len] + 1;
    }
  }

  /** Appends one INTEGER to the output. */
  method PutInteger(memory: seq<byte>, lo: nat, der: array<byte>, start: nat) returns (p: nat)
    requires |memory| == 65 && lo in {0, 32}
    requires start + 35 <= der.Length
    modifies der
    ensures
      var integer := Integer(Content(memory[lo..lo + 32], memory[lo + 32]));
      && p == start + |integer|
      && der[..p] == old(der[..start]) + integer
  {
    ghost var x, next := memory[lo..lo + 32], memory[lo + 32];
    var i := SkipZeros(memory, lo);
    assert memory[i] == if IsZero(x) then next else Strip(x)[0];
    ghost var head := if memory[i] >= 0x80 then [TAG_INTEGER, 1, 0] else [TAG_INTEGER, 0];
    p := PutHead(der, start, memory[i] >= 0x80);
    HeadThenNumber(old(der[..start]), x, next, head);
    ghost var before := der[..p];
    assert der[start + 1] == before[start + 1] == head[1];
    CopyNumber(memory, i, lo + 32, der, start + 1, p);
    p := p + (lo + 32 - i);
  }

  /** Both INTEGERs after a sequence header whose length is still open. */
  method PutBody(memory: seq<byte>, der: array<byte>) returns (p: nat, q: nat)
    requires |memory| == 65 && der.Length >= MAX_SIG_LEN
    modifies der
    ensures
      var r, s := Integer(Content(memory[0..32], memory[32])), Integer(Content(memory[32..64], memory[64]));
      p == 2 + |r| && q == p + |s| <= MAX_SIG_LEN && der[..q] == [TAG_SEQUENCE, 0] + r + s
  {
    der[0] := TAG_SEQUENCE;
    der[1] := 0;
    p := PutInteger(memory, 0, der, 2);
    assert der[..p] == [TAG_SEQUENCE, 0] + Integer(Content(memory[0..32], memory[32]));
    q := PutInteger(memory, 32, der, p);
  }

  /** The length bytes of the two INTEGERs give the length of the sequence. */
  lemma LengthBytes(out: seq<byte>, r: seq<byte>, s: seq<byte>)
    requires |r| <= 33 && |s| <= 33 && out == [TAG_SEQUENCE, 0] + Integer(r) + Integer(s)
    ensures |out| == 6 + |r| + |s| && out[3] == |r| && out[5 + |r|] == |s|
    ensures out[1 := |r| + |s| + 4] == [TAG_SEQUENCE, |r| + |s| + 4] + (Integer(r) + Integer(s))
  {
  }

  /** Returns the number of bytes written. */
  method SigToDer(memory: seq<byte>, der: array<byte>) returns (n: nat)
    requires |memory| == 65 && der.Length >= MAX_SIG_LEN
    modifies der
    ensures n <= MAX_SIG_LEN && der[..n] == Encode(memory[..64], memory[64])
  {
    var p, q := PutBody(memory, der);
    ghost var out, r, s := der[..q], Content(memory[0..32], memory[32]), Content(memory[32..64], memory[64]);
    assert memory[..64][..32] == memory[0..32] && memory[..64][32..] == memory[32..64];
    LengthBytes(out, r, s);
    assert der[3] == out[3] && der[p + 1] == out[p + 1];
    der[1] := der[3] + der[p + 1] + 4;
    n := der[1] + 2;
    assert der[..n] == out[1 := |r| + |s| + 4];
  }
}

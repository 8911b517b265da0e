/**
 * The four-level grey encoding of the 2.7 inch panels. A grey buffer holds
 * four 2-bit pixels per byte, the first in bits 7-6; the panel wants two
 * 1-bit planes, each byte holding one bit of eight consecutive pixels,
 * the first pixel in the most significant bit. Which bit of a pixel's
 * level a plane stores is what tells the two panel revisions apart.
 */
module Gray4 {
  import opened Bits

  /**
   * `temp1` after `k` of the drivers' `temp1 <<= 2`. Python's integer keeps
   * the bits shifted out; only bits 7-6 are ever read, so eight bits suffice.
   */
  function Shl(b: bv8, k: nat): bv8
    requires k < 4
  {
    if k == 0 then b else if k == 1 then b << 2 else if k == 2 then b << 4 else b << 6
  }

  /** Pixel `k` (0 to 3) of a grey byte, moved to bits 7-6: what `temp1 & 0xC0` sees. */
  function Top(b: bv8, k: nat): (t: bv8)
    requires k < 4
    ensures t & 0x3F == 0
  {
    Shl(b, k) & 0xC0
  }

  /**
   * The remapping `getbuffer_4Gray` applies to an "L" pixel before keeping
   * bits 7-6: exactly 0x80 becomes 0x40, then exactly 0xC0 becomes 0x80.
   * The effect is four bands of brightness, with the band edges 0x80 and
   * 0xC0 pushed into the darker band.
   */
  function Quantize(p: bv8): (q: bv8)
    ensures q & 0x3F == 0
    ensures q == 0xC0 <==> p > 0xC0
    ensures q == 0x80 <==> 0x80 < p <= 0xC0
    ensures q == 0x40 <==> 0x40 <= p <= 0x80
    ensures q == 0x00 <==> p < 0x40
  {
    var p1 := if p == 0x80 then 0x40 else p;
    var p2 := if p1 == 0xC0 then 0x80 else p1;
    p2 & 0xC0
  }

  /** A brighter pixel never gets a darker level. */
  lemma QuantizeMonotone(a: bv8, b: bv8)
    requires a <= b
    ensures Quantize(a) <= Quantize(b)
  {
  }

  /**
   * Four consecutive pixels quantised and or-ed into one byte, the first
   * in bits 7-6 and the last in bits 1-0. Reading the byte back gives the
   * quantised pixels.
   */
  function PackGroup(px: seq<bv8>): (r: bv8)
    requires |px| == 4
    ensures forall k :: 0 <= k < 4 ==> Top(r, k) == Quantize(px[k])
  {
    var q0, q1, q2, q3 := Quantize(px[0]), Quantize(px[1]), Quantize(px[2]), Quantize(px[3]);
    var r := q0 | (q1 >> 2) | (q2 >> 4) | (q3 >> 6);
    assert Top(r, 0) == q0 && Top(r, 1) == q1 && Top(r, 2) == q2 && Top(r, 3) == q3;
    r
  }

  /** The plane encodings: which bit of each pixel's level a plane stores. */
  datatype Rule = HighBit | LowBit | NotLowBit | NotHighBit

  /**
   * The if-chain on `temp2` in the drivers' plane loops: the bit a plane
   * gets for a pixel whose level sits in bits 7-6 of `t`.
   */
  function BitFor(rule: Rule, t: bv8): (bit: bool)
    ensures t & 0x3F == 0 && rule == HighBit ==> (bit <==> t & 0x80 != 0)
    ensures t & 0x3F == 0 && rule == LowBit ==> (bit <==> t & 0x40 != 0)
    ensures t & 0x3F == 0 && rule == NotLowBit ==> (bit <==> t & 0x40 == 0)
    ensures t & 0x3F == 0 && rule == NotHighBit ==> (bit <==> t & 0x80 == 0)
  {
    match rule
    case HighBit => if t == 0xC0 then true else if t == 0x00 then false else if t == 0x80 then true else false
    case LowBit => if t == 0xC0 then true else if t == 0x00 then false else if t == 0x80 then false else true
    case NotLowBit => if t == 0xC0 then false else if t == 0x00 then true else if t == 0x80 then true else false
    case NotHighBit => if t == 0xC0 then false else if t == 0x00 then true else if t == 0x80 then false else true
  }

  /** The plane bits of the eight pixels held by the grey bytes `b0` and `b1`. */
  function PairBits(b0: bv8, b1: bv8, rule: Rule): (bits: seq<bool>)
    ensures |bits| == 8
  {
    seq(8, m requires 0 <= m < 8 => BitFor(rule, Top(Pick(b0, b1, m), m % 4)))
  }

  /** One plane byte: pixel `m` of the pair gives bit `m`, the first pixel the most significant. */
  function PlaneByte(b0: bv8, b1: bv8, rule: Rule): (r: bv8)
    ensures forall m :: 0 <= m < 8 ==> (Bit(r, m) <==> BitFor(rule, Top(Pick(b0, b1, m), m % 4)))
  {
    ByteOf(PairBits(b0, b1, rule))
  }

  /** A whole plane: byte `i` is built from grey bytes `2i` and `2i + 1`. */
  function Plane(image: seq<bv8>, rule: Rule, count: nat): (r: seq<bv8>)
    requires |image| >= 2 * count
    ensures |r| == count
    ensures forall i, m :: 0 <= i < count && 0 <= m < 8 ==>
              (Bit(r[i], m) <==> BitFor(rule, Top(image[2 * i + m / 4], m % 4)))
  {
    seq(count, i requires 0 <= i < count => PlaneByte(image[2 * i], image[2 * i + 1], rule))
  }

  /**
   * The drivers' plane loop: byte `i` of the plane is built from grey
   * bytes `2i` and `2i + 1`, then sent.
   */
  method EncodePlane(image: seq<bv8>, rule: Rule, count: nat) returns (out: seq<bv8>)
    requires |image| >= 2 * count
    ensures out == Plane(image, rule, count)
  {
    out := [];
    var i := 0;
    while i < count
      invariant 0 <= i <= count
      invariant out == Plane(image, rule, count)[..i]
    {
      var temp3 := EncodeByte(image[2 * i], image[2 * i + 1], rule);
      out := out + [temp3];
      i := i + 1;
    }
  }

  /**
   * The body of the plane loop for one output byte: `temp3` starts at 0
   * and takes the pixels of grey byte `2i`, then of `2i + 1` (the loop over
   * `j`). Python's `temp3` is an unbounded integer, but it is shifted only
   * seven times, so a byte holds it exactly.
   */
  method EncodeByte(b0: bv8, b1: bv8, rule: Rule) returns (temp3: bv8)
    ensures temp3 == PlaneByte(b0, b1, rule)
  {
    temp3 := 0;
    var j := 0;
    while j < 2
      invariant 0 <= j <= 2
      invariant j < 2 ==> temp3 == PixelsSoFar(b0, b1, rule, 4 * j) << 1
      invariant j == 2 ==> temp3 == PixelsSoFar(b0, b1, rule, 4 * j)
    {
      temp3 := EncodeGreyByte(b0, b1, rule, j, temp3);
      j := j + 1;
    }
    PixelsSoFarIsAcc(b0, b1, rule, 4 * j);
    assert PairBits(b0, b1, rule)[..4 * j] == PairBits(b0, b1, rule);
  }

  /**
   * The four pixels of grey byte `j` of the pair, continuing the
   * accumulator `temp3`. The source's loop over `k` handles them two at a
   * time with the same steps written out twice; here each pass is one pixel.
   */
  method EncodeGreyByte(b0: bv8, b1: bv8, rule: Rule, j: nat, temp3In: bv8) returns (temp3: bv8)
    requires j < 2 && temp3In == PixelsSoFar(b0, b1, rule, 4 * j) << 1
    ensures j == 0 ==> temp3 == PixelsSoFar(b0, b1, rule, 4 * j + 4) << 1
    ensures j == 1 ==> temp3 == PixelsSoFar(b0, b1, rule, 4 * j + 4)
  {
    temp3 := temp3In;
    var temp1 := if j == 0 then b0 else b1;
    var q := 0;
    while q < 4
      invariant 0 <= q <= 4
      invariant q < 4 ==> temp1 == Shl(Pick(b0, b1, 4 * j), q)
      invariant 4 * j + q < 8 ==> temp3 == PixelsSoFar(b0, b1, rule, 4 * j + q) << 1
      invariant 4 * j + q == 8 ==> temp3 == PixelsSoFar(b0, b1, rule, 4 * j + q)
    {
      temp1, temp3 := PixelStep(b0, b1, rule, j, q, temp1, temp3);
      q := q + 1;
    }
  }

  /**
   * One pixel: `temp3 |=` its plane bit, `temp3 <<= 1` unless it is the
   * last of the pair, `temp1 <<= 2` to bring the next pixel to bits 7-6.
   */
  method PixelStep(b0: bv8, b1: bv8, rule: Rule, j: nat, q: nat, temp1In: bv8, temp3In: bv8)
    returns (temp1: bv8, temp3: bv8)
    requires j < 2 && q < 4 && temp1In == Shl(Pick(b0, b1, 4 * j), q)
    requires temp3In == PixelsSoFar(b0, b1, rule, 4 * j + q) << 1
    ensures q < 3 ==> temp1 == Shl(Pick(b0, b1, 4 * j), q + 1)
    ensures 4 * j + q + 1 < 8 ==> temp3 == PixelsSoFar(b0, b1, rule, 4 * j + q + 1) << 1
    ensures 4 * j + q + 1 == 8 ==> temp3 == PixelsSoFar(b0, b1, rule, 4 * j + q + 1)
  {
    SoFarNext(b0, b1, rule, j, q);
    temp3 := temp3In | One(BitFor(rule, temp1In & 0xC0));
    if j != 1 || q != 3 {
      temp3 := temp3 << 1;
    }
    ShlNext(Pick(b0, b1, 4 * j), q, temp1In);
    temp1 := temp1In << 2;
  }

  /** The accumulator after the first `p` pixels of a pair, each or-ed in after a shift. */
  function PixelsSoFar(b0: bv8, b1: bv8, rule: Rule, p: nat): bv8
    requires p <= 8
  {
    if p == 0 then 0
    else (PixelsSoFar(b0, b1, rule, p - 1) << 1) | One(BitFor(rule, Shl(Pick(b0, b1, p - 1), (p - 1) % 4) & 0xC0))
  }

  /** `PixelsSoFar` one pixel further, for pixel `q` of grey byte `j`. */
  lemma SoFarNext(b0: bv8, b1: bv8, rule: Rule, j: nat, q: nat)
    requires j < 2 && q < 4
    ensures PixelsSoFar(b0, b1, rule, 4 * j + q + 1) ==
            (PixelsSoFar(b0, b1, rule, 4 * j + q) << 1) | One(BitFor(rule, Shl(Pick(b0, b1, 4 * j), q) & 0xC0))
  {
    assert (4 * j + q) % 4 == q;
    assert Pick(b0, b1, 4 * j + q) == Pick(b0, b1, 4 * j);
  }

  lemma {:induction false} PixelsSoFarIsAcc(b0: bv8, b1: bv8, rule: Rule, p: nat)
    requires p <= 8
    ensures PixelsSoFar(b0, b1, rule, p) == Acc(PairBits(b0, b1, rule)[..p])
  {
    if p > 0 {
      PixelsSoFarIsAcc(b0, b1, rule, p - 1);
      var a := AccPrefix(PairBits(b0, b1, rule), p);
    }
  }

  /** The grey byte that holds pixel `p` of a pair. */
  function Pick(b0: bv8, b1: bv8, p: nat): bv8
  {
    if p < 4 then b0 else b1
  }

  /** Shifting the working byte by one more pixel. */
  lemma ShlNext(b: bv8, k: nat, t: bv8)
    requires k < 4 && t == Shl(b, k)
    ensures k < 3 ==> t << 2 == Shl(b, k + 1)
  {
  }

  /** Every byte of a sequence inverted. */
  function Complement(s: seq<bv8>): (r: seq<bv8>)
    ensures |r| == |s| && forall i :: 0 <= i < |s| ==> r[i] == !s[i]
  {
    seq(|s|, i requires 0 <= i < |s| => !s[i])
  }

  /**
   * Storing the negated low bit gives the complement of the low-bit plane,
   * and the negated high bit the complement of the high-bit plane.
   */
  lemma NegatedPlanes(image: seq<bv8>, count: nat)
    requires |image| >= 2 * count
    ensures Plane(image, NotLowBit, count) == Complement(Plane(image, LowBit, count))
    ensures Plane(image, NotHighBit, count) == Complement(Plane(image, HighBit, count))
  {
    forall i | 0 <= i < count
      ensures Plane(image, NotLowBit, count)[i] == !Plane(image, LowBit, count)[i]
      ensures Plane(image, NotHighBit, count)[i] == !Plane(image, HighBit, count)[i]
    {
      var b0, b1 := image[2 * i], image[2 * i + 1];
      ByteOfNegated(PairBits(b0, b1, LowBit), PairBits(b0, b1, NotLowBit));
      ByteOfNegated(PairBits(b0, b1, HighBit), PairBits(b0, b1, NotHighBit));
    }
  }
}

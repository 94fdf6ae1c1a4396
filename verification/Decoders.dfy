/**
 `GenericBinaryDecoder`: bytes to scaled, linearized values and back. `Codec` is the
 immutable configuration the decoder settles on; the class holds it in fields and fills
 the table in place.
 */
module Decoders {
  import opened Numbers
  import opened Options
  import opened WireFormat
  import opened Interpolation
  import opened LinTable

  /** Round half to even, Python's `round`. */
  function Round(r: real): (n: int)
    ensures -0.5 <= n as real - r <= 0.5
    ensures n as real - r == 0.5 || n as real - r == -0.5 ==> n % 2 == 0
  {
    var f := r.Floor;
    var d := r - f as real;
    if d < 0.5 then f
    else if d > 0.5 then f + 1
    else if f % 2 == 0 then f else f + 1
  }

  function Quantise(f: Format, raw: real): (code: int)
    ensures f.Fits(code)
  {
    var n := Round(raw);
    if n < f.Lo() then f.Lo() else if n > f.Hi() then f.Hi() else n
  }

  datatype Codec = Codec(format: Format, little: bool, zero: real, scale: real, hasTable: bool, xs: seq<real>,
                         ys: seq<real>) {

    ghost predicate Valid() {
      hasTable ==> Table(xs, ys)
    }

    function Curve(v: real): real
      requires Valid()
    {
      if hasTable then Linearize(xs, ys, v) else v
    }

    function Inverse(v: real): real
      requires Valid()
    {
      if hasTable then Delinearize(xs, ys, v) else v
    }

    function Scaled(code: int): real {
      (code as real - zero) * scale
    }

    function DecodeCode(code: int): real
      requires Valid()
    {
      Curve(Scaled(code))
    }

    /** The unrounded code of a value that is already on the scaled axis. */
    function Raw(s: real): real {
      if scale != 0.0 then s / scale + zero else zero
    }

    function EncodeValue(v: real): (code: int)
      requires Valid()
      ensures format.Fits(code)
    {
      Quantise(format, Raw(Inverse(v)))
    }

    function DecodeCodes(codes: seq<int>): (vs: seq<real>)
      requires Valid()
    {
      seq(|codes|, i requires 0 <= i < |codes| => DecodeCode(codes[i]))
    }

    function EncodeCodes(vs: seq<real>): (codes: seq<int>)
      requires Valid()
      ensures AllFit(format, codes)
    {
      seq(|vs|, i requires 0 <= i < |vs| => EncodeValue(vs[i]))
    }

    function DecodeBytes(bs: seq<Byte>): seq<real>
      requires Valid()
    {
      DecodeCodes(UnpackAll(format, little, bs))
    }

    function EncodeValues(vs: seq<real>): seq<Byte>
      requires Valid()
    {
      PackAll(format, little, EncodeCodes(vs))
    }

    /** The value `decode` can reach that lies at `v`: the ordinates of the table bound it. */
    function Reachable(v: real): real
      requires Valid()
    {
      if hasTable then Clamp(v, MinOf(ys), MaxOf(ys)) else v
    }

    /** Steepness of the decoded axis over the scaled axis. */
    function Steepness(): real
      requires Valid()
    {
      if hasTable then Steepest(xs, ys) else 1.0
    }

    function LocalSlope(s: real): real
      requires Valid()
    {
      if !hasTable then 1.0
      else
        var i := BisectRight(xs, s);
        if i == 0 || i == |xs| then 0.0 else Slope(xs, ys, i - 1)
    }
  }

  // ---------------------------------------------------------------- scalar facts

  lemma ScaleBack(s: real, scale: real)
    requires scale != 0.0
    ensures s / scale * scale == s
  {
  }

  lemma DivideBack(d: real, scale: real)
    requires scale != 0.0
    ensures d * scale / scale == d
  {
    var q := d * scale / scale;
    assert (q - d) * scale == 0.0;
  }

  lemma AbsProduct(a: real, b: real)
    ensures Abs(a * b) == Reach(Abs(b), Abs(a))
  {
    assert Abs(b) * Abs(a) == if (a < 0.0) == (b < 0.0) then a * b else -(a * b);
    if (a < 0.0) == (b < 0.0) {
      Product(Abs(a), Abs(b));
    } else {
      Product(Abs(a), Abs(b));
    }
  }

  /** A code decodes off its target by its distance to the unrounded code, scaled. */
  lemma CodeError(c: Codec, s: real, code: int)
    requires c.scale != 0.0
    ensures Abs(c.Scaled(code) - s) == Reach(Abs(c.scale), Abs(code as real - c.Raw(s)))
  {
    ScaleBack(s, c.scale);
    var d := code as real - c.Raw(s);
    assert d * c.scale == (code as real - c.zero) * c.scale - s / c.scale * c.scale;
    AbsProduct(d, c.scale);
  }

  lemma QuantiseNearest(f: Format, raw: real, code: int)
    requires f.Fits(code)
    ensures Abs(Quantise(f, raw) as real - raw) <= Abs(code as real - raw)
  {
    var n := Round(raw);
    assert n as real - raw <= 0.5 && raw - n as real <= 0.5;
    if code < n {
      assert code as real <= n as real - 1.0;
    } else if code > n {
      assert code as real >= n as real + 1.0;
    }
  }

  // ---------------------------------------------------------------- theorems

  /** Values survive `encode` then `decode` element by element, in either byte order. */
  lemma DecodeEncode(c: Codec, vs: seq<real>)
    requires c.Valid()
    ensures c.DecodeBytes(c.EncodeValues(vs)) == seq(|vs|,
                                                     i requires 0 <= i < |vs| => c.DecodeCode(c.EncodeValue(vs[i])))
  {
    UnpackAllPackAll(c.format, c.little, c.EncodeCodes(vs));
  }

  /** Without a table the encoded code is the best one the format has, clamping included. */
  lemma EncodeIsNearest(c: Codec, v: real, code: int)
    requires c.Valid() && !c.hasTable && c.scale != 0.0 && c.format.Fits(code)
    ensures Abs(c.DecodeCode(c.EncodeValue(v)) - v) <= Abs(c.DecodeCode(code) - v)
  {
    hide Reach, Quantise;
    var q := c.EncodeValue(v);
    CodeError(c, v, q);
    CodeError(c, v, code);
    QuantiseNearest(c.format, c.Raw(v), code);
    WidenStep(Abs(c.scale), Abs(q as real - c.Raw(v)), Abs(code as real - c.Raw(v)));
  }

  /**
   Quantisation error through the table: encoding and decoding a value misses what the
   table can express by at most half a code times the steepest slope.
   */
  lemma QuantisationBound(c: Codec, v: real)
    requires c.Valid() && c.scale != 0.0
    requires c.format.Fits(Round(c.Raw(c.Inverse(v))))
    ensures Abs(c.DecodeCode(c.EncodeValue(v)) - c.Reachable(v)) <= Reach(c.Steepness(), Reach(Abs(c.scale), 0.5))
  {
    hide Reach, Linearize, Delinearize;
    var s, q := c.Inverse(v), c.EncodeValue(v);
    CodeError(c, s, q);
    assert Abs(q as real - c.Raw(s)) <= 0.5;
    WidenStep(Abs(c.scale), Abs(q as real - c.Raw(s)), 0.5);
    if c.hasTable {
      LinearizeDelinearize(c.xs, c.ys, v);
      LinearizeLipschitz(c.xs, c.ys, s, c.Scaled(q));
      WidenStep(Steepest(c.xs, c.ys), Abs(c.Scaled(q) - s), Reach(Abs(c.scale), 0.5));
    } else {
      UnitReach(Reach(Abs(c.scale), 0.5));
    }
  }

  lemma UnitReach(d: real)
    ensures Reach(1.0, d) == d
  {
  }

  /** The code a decoded code encodes back to. */
  lemma ReencodeCode(c: Codec, code: int)
    requires c.Valid() && c.scale != 0.0 && c.format.Fits(code)
    requires c.hasTable ==>
      && (Increasing(c.ys) || Decreasing(c.ys))
      && c.xs[0] <= c.Scaled(code) <= c.xs[|c.xs| - 1]
    ensures c.EncodeValue(c.DecodeCode(code)) == code
  {
    hide Linearize, Delinearize;
    if c.hasTable {
      DelinearizeLinearize(c.xs, c.ys, c.Scaled(code));
    }
    assert c.Inverse(c.DecodeCode(code)) == c.Scaled(code);
    DivideBack(code as real - c.zero, c.scale);
    assert c.Raw(c.Scaled(code)) == code as real;
  }

  /** The whole words of a payload survive `decode` then `encode`. */
  lemma ByteRoundTrip(c: Codec, bs: seq<Byte>)
    requires c.Valid() && c.scale != 0.0
    requires c.hasTable ==> Increasing(c.ys) || Decreasing(c.ys)
    requires c.hasTable ==> forall code :: code in UnpackAll(c.format, c.little, bs) ==>
                              c.xs[0] <= c.Scaled(code) <= c.xs[|c.xs| - 1]
    ensures c.EncodeValues(c.DecodeBytes(bs)) == bs[..WholeLength(c.format, |bs|)]
  {
    hide Linearize, Delinearize, Quantise, UnpackAll, PackAll, WholeLength;
    var codes := UnpackAll(c.format, c.little, bs);
    forall i | 0 <= i < |codes| ensures c.EncodeValue(c.DecodeCode(codes[i])) == codes[i] {
      ReencodeCode(c, codes[i]);
    }
    assert c.EncodeCodes(c.DecodeCodes(codes)) == codes;
    PackAllUnpackAll(c.format, c.little, bs);
  }

  lemma ZeroScaleCodes(c: Codec, codes: seq<int>)
    requires c.Valid() && !c.hasTable && c.scale == 0.0
    ensures c.EncodeCodes(c.DecodeCodes(codes)) == codes <==> forall code :: code in codes ==>
            code == Quantise(c.format, c.zero)
  {
    hide Quantise;
    var back := c.EncodeCodes(c.DecodeCodes(codes));
    assert |back| == |codes|;
    assert forall i :: 0 <= i < |codes| ==> back[i] == Quantise(c.format, c.zero);
    assert forall i :: 0 <= i < |codes| ==> codes[i] in codes;
  }

  lemma PackAllInjective(f: Format, little: bool, codes: seq<int>, codes': seq<int>)
    requires AllFit(f, codes) && AllFit(f, codes')
    ensures PackAll(f, little, codes) == PackAll(f, little, codes') <==> codes == codes'
  {
    UnpackAllPackAll(f, little, codes);
    UnpackAllPackAll(f, little, codes');
  }

  /**
   A zero scale (a manifest with measurementRange 0) is the one configuration without a
   table that loses payloads: it keeps exactly those whose codes all equal the zero code.
   */
  lemma ByteRoundTripExactly(c: Codec, bs: seq<Byte>)
    requires c.Valid() && !c.hasTable
    ensures c.EncodeValues(c.DecodeBytes(bs)) == bs[..WholeLength(c.format, |bs|)] <==>
            c.scale != 0.0 || forall code :: code in UnpackAll(c.format, c.little, bs) ==>
                code == Quantise(c.format, c.zero)
  {
    hide Quantise;
    var codes := UnpackAll(c.format, c.little, bs);
    PackAllUnpackAll(c.format, c.little, bs);
    if c.scale != 0.0 {
      ByteRoundTrip(c, bs);
    } else {
      ZeroScaleCodes(c, codes);
      PackAllInjective(c.format, c.little, c.EncodeCodes(c.DecodeCodes(codes)), codes);
    }
  }

  /**
   `adc_lsb_decoded` is what its name says: while one code step stays in one segment (or
   on one flat end), it is the exact decoded distance between the two codes.
   */
  lemma LsbIsOneCodeStep(c: Codec, code: int)
    requires c.Valid()
    requires c.hasTable ==> BisectRight(c.xs, c.Scaled(code)) == BisectRight(c.xs, c.Scaled(code + 1))
    ensures Abs(c.DecodeCode(code + 1) - c.DecodeCode(code)) == Abs(c.LocalSlope(c.Scaled(code)) * c.scale)
  {
    hide Linearize, BisectRight;
    var s, t := c.Scaled(code), c.Scaled(code + 1);
    OneStep(code as real - c.zero, c.scale);
    assert t - s == c.scale;
    if c.hasTable {
      SameSegmentStep(c, s, t);
    }
  }

  lemma OneStep(d: real, scale: real)
    ensures (d + 1.0) * scale - d * scale == scale
  {
  }

  lemma SameSegmentStep(c: Codec, s: real, t: real)
    requires c.Valid() && c.hasTable && BisectRight(c.xs, s) == BisectRight(c.xs, t)
    ensures c.Curve(t) - c.Curve(s) == c.LocalSlope(s) * (t - s)
  {
    hide Lerp;
    var i := BisectRight(c.xs, s);
    if 0 < i < |c.xs| {
      LerpDifference(c.xs[i - 1], c.xs[i], c.ys[i - 1], c.ys[i], s, t);
    }
  }

  /** A code on an abscissa of the table decodes to its ordinate. */
  lemma KnotDecodes(c: Codec, code: int, x: real, y: real)
    requires c.Valid() && c.hasTable && Knot(c.xs, c.ys, x, y) && (code as real - c.zero) * c.scale == x
    ensures c.DecodeCode(code) == y
  {
    hide Linearize;
    assert c.Scaled(code) == x;
    CurveAtKnot(c.xs, c.ys, x, y);
  }

  /**
   What decoded codes are in terms of the manifest: without a table `(code - zero) * scale`;
   with one, a code that scales to the abscissa of a listed entry gives that entry's ordinate.
   */
  ghost predicate Measured(entries: seq<Entry>, used: bool, zero: real, scale: real, codes: seq<int>, out: seq<real>) {
    && |out| == |codes|
    && (!used ==> forall i :: 0 <= i < |codes| ==> out[i] == (codes[i] as real - zero) * scale)
    && (used ==> forall i, x, y :: 0 <= i < |codes| && FirstListed(entries, x, y) ==>
                     (codes[i] as real - zero) * scale == x ==> out[i] == y)
  }

  lemma DecodedIsMeasured(c: Codec, codes: seq<int>, entries: seq<Entry>)
    requires c.Valid()
    requires c.hasTable ==> forall x, y :: FirstListed(entries, x, y) ==> Knot(c.xs, c.ys, x, y)
    ensures Measured(entries, c.hasTable, c.zero, c.scale, codes, c.DecodeCodes(codes))
  {
    hide FirstListed, Knot, Linearize;
    if c.hasTable {
      forall i, x, y | 0 <= i < |codes| && FirstListed(entries, x, y)
        ensures (codes[i] as real - c.zero) * c.scale == x ==> c.DecodeCodes(codes)[i] == y
      {
        if (codes[i] as real - c.zero) * c.scale == x {
          KnotDecodes(c, codes[i], x, y);
        }
      }
    }
  }

  lemma CurveAtKnot(xs: seq<real>, ys: seq<real>, x: real, y: real)
    requires Table(xs, ys) && Knot(xs, ys, x, y)
    ensures Linearize(xs, ys, x) == y
  {
    hide Linearize;
    var k :| 0 <= k < |xs| && xs[k] == x && ys[k] == y;
    LinearizeAtKnot(xs, ys, k);
  }

  lemma FirstSegmentStep(ys: seq<real>, w: real, i: nat)
    requires i < |ys| - 1
    ensures FirstSegment(ys, w, i) ==
            if Min(ys[i], ys[i + 1]) <= w <= Max(ys[i], ys[i + 1]) then i else FirstSegment(ys, w, i + 1)
  {
  }

  lemma FirstSegmentNone(ys: seq<real>, w: real)
    requires ys != []
    ensures FirstSegment(ys, w, |ys| - 1) == |ys| - 1
  {
  }

  lemma DelinearizeCases(xs: seq<real>, ys: seq<real>, w: real)
    requires Table(xs, ys)
    ensures var k := FirstSegment(ys, w, 0);
            Delinearize(xs, ys, w) ==
            if k < |ys| - 1 then
              if ys[k] == ys[k + 1] then xs[k] else Lerp(ys[k], ys[k + 1], xs[k], xs[k + 1], w)
            else if w <= MinOf(ys) then xs[IndexOf(ys, MinOf(ys))]
            else if w >= MaxOf(ys) then xs[IndexOf(ys, MaxOf(ys))]
            else w
  {
    hide FirstSegment, Lerp;
  }

  /** `_delinearize`: the first segment whose ordinates enclose the value, else the nearest end. */
  method SearchInverse(xs: seq<real>, ys: seq<real>, val: real) returns (r: real)
    requires Table(xs, ys)
    ensures r == Delinearize(xs, ys, val)
  {
    hide FirstSegment, MinOf, MaxOf, IndexOf, Delinearize, Lerp;
    DelinearizeCases(xs, ys, val);
    FirstSegmentNone(ys, val);
    for i := 0 to |xs| - 1
      invariant FirstSegment(ys, val, 0) == FirstSegment(ys, val, i)
    {
      FirstSegmentStep(ys, val, i);
      var y0, y1 := ys[i], ys[i + 1];
      if Min(y0, y1) <= val <= Max(y0, y1) {
        if y0 == y1 {
          return xs[i];
        }
        return Lerp(y0, y1, xs[i], xs[i + 1], val);
      }
    }
    if val <= MinOf(ys) {
      return xs[IndexOf(ys, MinOf(ys))];
    }
    if val >= MaxOf(ys) {
      return xs[IndexOf(ys, MaxOf(ys))];
    }
    return val;
  }

  // ---------------------------------------------------------------- the decoder object

  class GenericBinaryDecoder {
    const format: Format
    const little: bool
    const zeroVal: real
    const scale: real
    var linX: seq<real>
    var linY: seq<real>
    var hasLinTable: bool
    var lastScaledValue: Option<real>
    /** The list of the manifest; empty without one. */
    ghost const calibration: seq<Entry>

    ghost predicate Valid()
      reads this
    {
      Config().Valid() && Calibrated(calibration)
    }

    /**
     The table is used exactly when the list has two abscissae, and then it has the point
     `(x, y)` exactly when the first usable entry of the list with abscissa `x` is `(x, y)`.
     */
    ghost predicate Calibrated(entries: seq<Entry>)
      reads this
    {
      && (hasLinTable <==> TwoAbscissae(entries))
      && |linX| == |linY|
      && (hasLinTable ==> forall x, y :: Knot(linX, linY, x, y) <==> FirstListed(entries, x, y))
    }

    ghost function Config(): Codec
      reads this
    {
      Codec(format, little, zeroVal, scale, hasLinTable, linX, linY)
    }

    constructor (format: Format, little: bool, zero: real, valueRange: real, measurementRange: real,
                 table: Option<seq<Entry>>)
      ensures Valid() && lastScaledValue == None
      ensures this.format == format && this.little == little && zeroVal == zero
      ensures scale == measurementRange / (if valueRange == 0.0 then 1.0 else valueRange)
      ensures calibration == table.GetOr([])
    {
      calibration := table.GetOr([]);
      this.format, this.little, zeroVal := format, little, zero;
      scale := measurementRange / (if valueRange == 0.0 then 1.0 else valueRange);
      linX, linY, hasLinTable, lastScaledValue := [], [], false, None;
      new;
      if table.Some? {
        BuildLinTable(table.value);
      }
    }

    method BuildLinTable(entries: seq<Entry>)
      requires linX == [] && linY == [] && !hasLinTable
      modifies this`linX, this`linY, this`hasLinTable
      ensures Config().Valid() && Calibrated(entries)
    {
      hide FirstListed, TwoAbscissae;
      var cleaned: seq<Point> := [];
      for k := 0 to |entries|
        invariant cleaned == Cleaned(entries[..k])
      {
        assert entries[..k + 1][..k] == entries[..k];
        match entries[k]
        case Pair(x, y) => cleaned := cleaned + [(x, y)];
        case Malformed =>
      }
      assert entries[..|entries|] == entries;
      if |cleaned| < 2 {
        if TwoAbscissae(entries) {
          CleanedShort(entries);
        }
        return;
      }
      var sorted := SortByX(cleaned);
      for k := 0 to |sorted|
        invariant |linX| == |linY| && Increasing(linX)
        invariant k == 0 ==> linX == []
        invariant k > 0 ==> linX != [] && linX[|linX| - 1] == sorted[k - 1].0
        invariant forall x {:trigger FirstY(Zip(linX, linY), x)} :: FirstY(Zip(linX, linY), x) == FirstY(sorted[..k], x)
      {
        var p := sorted[k];
        ghost var before := Zip(linX, linY);
        assert sorted[..k + 1] == sorted[..k] + [p];
        if linX != [] && p.0 <= linX[|linX| - 1] {
          assert before[|linX| - 1].0 == p.0;
          forall x ensures FirstY(Zip(linX, linY), x) == FirstY(sorted[..k + 1], x) {
            FirstYAppend(sorted[..k], p, x);
          }
        } else {
          linX, linY := linX + [p.0], linY + [p.1];
          assert Zip(linX, linY) == before + [p];
          forall x ensures FirstY(Zip(linX, linY), x) == FirstY(sorted[..k + 1], x) {
            FirstYAppend(before, p, x);
            FirstYAppend(sorted[..k], p, x);
          }
        }
      }
      assert sorted[..|sorted|] == sorted;
      hasLinTable := |linX| >= 2;
      assert Calibrates(entries, linX, linY);
      hide Knot, Calibrates;
      TwoPoints(entries, linX, linY);
      forall x, y ensures Knot(linX, linY, x, y) <==> FirstListed(entries, x, y) {
        TableIsTheList(entries, linX, linY, x, y);
      }
    }

    method Decode(data: seq<Byte>) returns (out: seq<real>)
      requires Valid()
      modifies this`lastScaledValue
      ensures out == Config().DecodeBytes(data)
      ensures |out| == |data| / format.Size()
      ensures Measured(calibration, hasLinTable, zeroVal, scale, UnpackAll(format, little, data), out)
      ensures lastScaledValue == if out == [] then old(lastScaledValue)
                                 else var codes := UnpackAll(format, little, data);
                                      Some(Config().Scaled(codes[|codes| - 1]))
    {
      hide FirstListed, Knot, Linearize, TwoAbscissae, Measured;
      var codes := UnpackAll(format, little, data);
      out := [];
      if codes == [] {
        DecodedIsMeasured(Config(), codes, calibration);
        return;
      }
      var lastScaled: Option<real> := None;
      for i := 0 to |codes|
        invariant out == Config().DecodeCodes(codes[..i])
        invariant lastScaled == if i == 0 then None else Some(Config().Scaled(codes[i - 1]))
      {
        var scaledVal := (codes[i] as real - zeroVal) * scale;
        assert scaledVal == Config().Scaled(codes[i]);
        out := out + [if hasLinTable then Linearize(linX, linY, scaledVal) else scaledVal];
        lastScaled := Some(scaledVal);
      }
      assert codes[..|codes|] == codes;
      lastScaledValue := lastScaled;
      DecodedIsMeasured(Config(), codes, calibration);
    }

    method DelinearizeValue(val: real) returns (r: real)
      requires Valid()
      ensures r == Config().Inverse(val)
    {
      if !hasLinTable {
        return val;
      }
      r := SearchInverse(linX, linY, val);
    }

    method Encode(values: seq<real>) returns (data: seq<Byte>)
      requires Valid()
      ensures data == Config().EncodeValues(values)
    {
      hide Delinearize, Quantise;
      var codes: seq<int> := [];
      for i := 0 to |values|
        invariant codes == Config().EncodeCodes(values[..i])
      {
        var v := DelinearizeValue(values[i]);
        var raw := if scale != 0.0 then v / scale + zeroVal else zeroVal;
        assert raw == Config().Raw(Config().Inverse(values[i]));
        codes := codes + [Quantise(format, raw)];
      }
      assert values[..|values|] == values;
      data := PackAll(format, little, codes);
    }

    /** One raw code in decoded units, at the last decoded sample. */
    method AdcLsbDecoded() returns (lsb: real)
      requires Valid()
      ensures lsb == match lastScaledValue
                     case Some(s) => Abs(Config().LocalSlope(s) * scale)
                     case None => if hasLinTable then 0.0 else Abs(scale)
    {
      var slope;
      match lastScaledValue {
        case None => slope := if hasLinTable then 0.0 else 1.0;
        case Some(s) =>
          if !hasLinTable {
            slope := 1.0;
          } else {
            var i := BisectRight(linX, s);
            slope := if i == 0 || i == |linX| then 0.0
                     else (linY[i] - linY[i - 1]) / (linX[i] - linX[i - 1]);
          }
      }
      lsb := Abs(slope * scale);
    }
  }
}

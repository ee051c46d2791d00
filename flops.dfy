/** The operation count main reports: nflop = (kmax-2)*(jmax-2)*(imax-2)*34, evaluated in
    32-bit C `int` from left to right before it is converted to double. Each intermediate
    product that leaves the int range is signed overflow, which C leaves undefined; the model
    returns None for it. */
module Flops {

  const IntMax := 0x7fff_ffff
  const LongMax := 0x7fff_ffff_ffff_ffff

  /** x is representable as a two's-complement integer whose largest value is max. */
  predicate Representable(x: int, max: nat) {
    -(max as int) - 1 <= x <= max
  }

  /** x is representable as a 32-bit C int. */
  predicate IsInt(x: int) {
    Representable(x, IntMax)
  }

  datatype Option<T> = None | Some(value: T)

  /** The problem sizes selectable by the preprocessor (SMALL is the one defined). */
  datatype Preset = Small | Middle | Large | ExtLarge

  /** The array extents (MIMAX, MJMAX, MKMAX) of a preset. */
  function Extents(s: Preset): (int, int, int) {
    match s
    case Small => (129, 65, 65)
    case Middle => (257, 129, 129)
    case Large => (513, 257, 257)
    case ExtLarge => (1025, 513, 513)
  }

  /** The expression (kmax-2)*(jmax-2)*(imax-2)*34 evaluated from left to right in a signed
      integer type whose largest value is max: Some(value) when no step overflows. */
  function Product(max: nat, imax: int, jmax: int, kmax: int): (r: Option<int>)
    ensures r.Some? ==> Representable(r.value, max) && r.value == Work(imax, jmax, kmax)
  {
    var k2, j2, i2 := kmax - 2, jmax - 2, imax - 2;
    if !Representable(k2, max) || !Representable(j2, max) || !Representable(i2, max) then None
    else
      var kj := k2 * j2;
      if !Representable(kj, max) then None
      else
        var kji := kj * i2;
        if !Representable(kji, max) then None
        else
          var n := kji * 34;
          if !Representable(n, max) then None else Some(n)
  }

  /** nflop as main computes it, in 32-bit int. */
  function NFlop(imax: int, jmax: int, kmax: int): Option<int> {
    Product(IntMax, imax, jmax, kmax)
  }

  /** nflop computed in 64-bit long long, as the assignment to a double evidently intends. */
  function NFlopWide(imax: int, jmax: int, kmax: int): Option<int> {
    Product(LongMax, imax, jmax, kmax)
  }

  /** 34 operations for each of the (imax-2)(jmax-2)(kmax-2) interior cells of a sweep. */
  function Work(imax: int, jmax: int, kmax: int): int {
    (kmax - 2) * (jmax - 2) * (imax - 2) * 34
  }

  lemma ProductGrows(x: int, y: int)
    requires x >= 1 && y >= 1
    ensures x <= x * y
  {
    assert x * y == x * (y - 1) + x;
    assert x * (y - 1) >= 0;
  }

  /** For grids with every extent at least 3, the evaluation is exact whenever the count fits
      in the type, and overflows otherwise: every intermediate product is at most the final one. */
  lemma ProductExact(max: nat, imax: int, jmax: int, kmax: int)
    requires Representable(imax, max) && Representable(jmax, max) && Representable(kmax, max)
    requires imax >= 3 && jmax >= 3 && kmax >= 3
    ensures Product(max, imax, jmax, kmax).Some? <==> Work(imax, jmax, kmax) <= max
    ensures Product(max, imax, jmax, kmax).Some? ==> Product(max, imax, jmax, kmax).value == Work(imax, jmax, kmax)
  {
    var k2, j2, i2 := kmax - 2, jmax - 2, imax - 2;
    var kj := k2 * j2;
    ProductGrows(k2, j2);
    var kji := kj * i2;
    ProductGrows(kj, i2);
    ProductGrows(kji, 34);
    assert Work(imax, jmax, kmax) == kji * 34;
  }

  /** The small, middle and large presets count their work without overflow in int. */
  lemma PresetsFit(s: Preset)
    requires s != ExtLarge
    ensures var (mi, mj, mk) := Extents(s);
      NFlop(mi - 1, mj - 1, mk - 1) == Some(Work(mi - 1, mj - 1, mk - 1))
    ensures s == Small ==> NFlop(128, 64, 64) == Some(16467696)
    ensures s == Middle ==> NFlop(256, 128, 128) == Some(137105136)
    ensures s == Large ==> NFlop(512, 256, 256) == Some(1118707440)
  {
    match s
    case Small => ProductExact(IntMax, 128, 64, 64);
    case Middle => ProductExact(IntMax, 256, 128, 128);
    case Large => ProductExact(IntMax, 512, 256, 256);
  }

  /** The ext.large preset's count, 9,037,954,800, exceeds INT_MAX: the last multiplication
      overflows, after the first two products fit. */
  lemma ExtLargeOverflows()
    ensures Work(1024, 512, 512) == 9037954800 > IntMax
    ensures IsInt(510 * 510 * 1022)
    ensures NFlop(1024, 512, 512) == None
  {
    ProductExact(IntMax, 1024, 512, 512);
  }

  /** For the extents of a preset, the int count is defined exactly when the preset is not
      ext.large, and is then the work of one sweep. */
  lemma PresetCount(s: Preset, imax: int, jmax: int, kmax: int)
    requires (imax + 1, jmax + 1, kmax + 1) == Extents(s)
    ensures IsInt(imax) && IsInt(jmax) && IsInt(kmax)
    ensures NFlop(imax, jmax, kmax).Some? <==> s != ExtLarge
    ensures NFlop(imax, jmax, kmax).Some? ==> NFlop(imax, jmax, kmax).value == Work(imax, jmax, kmax)
  {
    if s == ExtLarge {
      ExtLargeOverflows();
    } else {
      PresetsFit(s);
    }
  }

  /** Evaluated in 64 bits, the count of every preset, ext.large included, is exact. */
  lemma PresetCountWide(s: Preset, imax: int, jmax: int, kmax: int)
    requires (imax + 1, jmax + 1, kmax + 1) == Extents(s)
    ensures NFlopWide(imax, jmax, kmax) == Some(Work(imax, jmax, kmax))
    ensures s == ExtLarge ==> NFlopWide(imax, jmax, kmax) == Some(9037954800)
  {
    ProductExact(LongMax, imax, jmax, kmax);
  }
}

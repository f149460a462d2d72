/**
 * The hospital colour system: a palette of ten colour schemes, a 32-bit string hash
 * that picks one for a hospital id, a lookup by position, and the grey scheme used
 * when there is no id.
 */
module HospitalColors {
  import opened Base

  /** The Tailwind classes of one colour scheme. */
  datatype ColorScheme = ColorScheme(
    primary: string,
    secondary: string,
    text: string,
    border: string,
    gradient: string,
    hover: string,
    light: string,
    dark: string)

  /** `hospitalColors`. */
  const Palette: seq<ColorScheme> := [
    ColorScheme("bg-blue-600", "bg-blue-50", "text-blue-600", "border-blue-500",
                "from-blue-500 to-blue-600", "hover:bg-blue-700", "bg-blue-100", "bg-blue-800"),
    ColorScheme("bg-emerald-600", "bg-emerald-50", "text-emerald-600", "border-emerald-500",
                "from-emerald-500 to-emerald-600", "hover:bg-emerald-700", "bg-emerald-100", "bg-emerald-800"),
    ColorScheme("bg-purple-600", "bg-purple-50", "text-purple-600", "border-purple-500",
                "from-purple-500 to-purple-600", "hover:bg-purple-700", "bg-purple-100", "bg-purple-800"),
    ColorScheme("bg-orange-600", "bg-orange-50", "text-orange-600", "border-orange-500",
                "from-orange-500 to-orange-600", "hover:bg-orange-700", "bg-orange-100", "bg-orange-800"),
    ColorScheme("bg-teal-600", "bg-teal-50", "text-teal-600", "border-teal-500",
                "from-teal-500 to-teal-600", "hover:bg-teal-700", "bg-teal-100", "bg-teal-800"),
    ColorScheme("bg-rose-600", "bg-rose-50", "text-rose-600", "border-rose-500",
                "from-rose-500 to-rose-600", "hover:bg-rose-700", "bg-rose-100", "bg-rose-800"),
    ColorScheme("bg-indigo-600", "bg-indigo-50", "text-indigo-600", "border-indigo-500",
                "from-indigo-500 to-indigo-600", "hover:bg-indigo-700", "bg-indigo-100", "bg-indigo-800"),
    ColorScheme("bg-cyan-600", "bg-cyan-50", "text-cyan-600", "border-cyan-500",
                "from-cyan-500 to-cyan-600", "hover:bg-cyan-700", "bg-cyan-100", "bg-cyan-800"),
    ColorScheme("bg-amber-600", "bg-amber-50", "text-amber-600", "border-amber-500",
                "from-amber-500 to-amber-600", "hover:bg-amber-700", "bg-amber-100", "bg-amber-800"),
    ColorScheme("bg-pink-600", "bg-pink-50", "text-pink-600", "border-pink-500",
                "from-pink-500 to-pink-600", "hover:bg-pink-700", "bg-pink-100", "bg-pink-800")
  ]

  /** The scheme `useHospitalColor` falls back to without a hospital id. */
  const Grey: ColorScheme :=
    ColorScheme("bg-gray-600", "bg-gray-50", "text-gray-600", "border-gray-500",
                "from-gray-500 to-gray-600", "hover:bg-gray-700", "bg-gray-100", "bg-gray-800")

  /** The two letters after `bg-` that tell the palette's primary colours apart. */
  function Tag(primary: string): (char, char)
  {
    if |primary| >= 5 then (primary[3], primary[4]) else (' ', ' ')
  }

  const PrimaryTags: seq<(char, char)> :=
    [('b', 'l'), ('e', 'm'), ('p', 'u'), ('o', 'r'), ('t', 'e'),
     ('r', 'o'), ('i', 'n'), ('c', 'y'), ('a', 'm'), ('p', 'i')]

  lemma PaletteTags()
    ensures |Palette| == |PrimaryTags| == 10
    ensures forall i :: 0 <= i < 10 ==> Tag(Palette[i].primary) == PrimaryTags[i]
  {
    forall i | 0 <= i < 10 ensures Tag(Palette[i].primary) == PrimaryTags[i] {
      PaletteTag(i);
    }
  }

  lemma PaletteTag(i: int)
    requires 0 <= i < 10
    ensures Tag(Palette[i].primary) == PrimaryTags[i]
  {
    var p := Palette[i].primary;
    if i == 0 { assert p == "bg-blue-600"; }
    else if i == 1 { assert p == "bg-emerald-600"; }
    else if i == 2 { assert p == "bg-purple-600"; }
    else if i == 3 { assert p == "bg-orange-600"; }
    else if i == 4 { assert p == "bg-teal-600"; }
    else if i == 5 { assert p == "bg-rose-600"; }
    else if i == 6 { assert p == "bg-indigo-600"; }
    else if i == 7 { assert p == "bg-cyan-600"; }
    else if i == 8 { assert p == "bg-amber-600"; }
    else { assert p == "bg-pink-600"; }
  }

  lemma PrimaryTagsDistinct()
    ensures forall i, j :: 0 <= i < j < |PrimaryTags| ==> PrimaryTags[i] != PrimaryTags[j]
  {
    var t := PrimaryTags;
    forall i, j | 0 <= i < j < |t| ensures t[i] != t[j] {
      assert t[i].0 != t[j].0 || t[i].1 != t[j].1;
    }
  }

  /** The palette has ten schemes, no two alike, and the grey default is none of them. */
  lemma PaletteShape()
    ensures |Palette| == 10
    ensures forall i, j :: 0 <= i < j < |Palette| ==> Palette[i].primary != Palette[j].primary
    ensures Grey !in Palette
  {
    PaletteTags();
    PrimaryTagsDistinct();
    assert Tag(Grey.primary) == ('g', 'r');
    forall i | 0 <= i < |Palette| ensures Palette[i] != Grey {
      assert Tag(Palette[i].primary) != Tag(Grey.primary);
    }
  }

  const TwoTo32: int := 0x1_0000_0000
  const TwoTo31: int := 0x8000_0000

  /** ECMAScript ToInt32 (ECMA-262, section 7.1.6): the value modulo 2^32, read as signed. */
  function ToInt32(x: int): (r: int)
    ensures -TwoTo31 <= r < TwoTo31
    ensures (r - x) % TwoTo32 == 0
  {
    var m := x % TwoTo32;
    if m >= TwoTo31 then m - TwoTo32 else m
  }

  /** ToInt32 depends only on the value modulo 2^32. */
  lemma ToInt32Congruent(x: int, y: int)
    requires (x - y) % TwoTo32 == 0
    ensures ToInt32(x) == ToInt32(y)
  {
    var k := (x - y) / TwoTo32;
    assert x == y + k * TwoTo32;
    ModShift(y, k);
  }

  lemma ModShift(y: int, k: int)
    ensures (y + k * TwoTo32) % TwoTo32 == y % TwoTo32
  {
  }

  /** One iteration of the hash loop: `hash = ((hash << 5) - hash) + char; hash = hash & hash`. */
  function Step(hash: int, unit: int): int
  {
    var shifted := ToInt32(ToInt32(hash) * 32);   // `<<` works on the 32-bit value
    ToInt32(shifted - hash + unit)                // `& hash` with itself truncates to 32 bits
  }

  /** The loop step is the recurrence h' = ToInt32(31 * h + unit). */
  lemma StepIsTimes31(hash: int, unit: int)
    ensures Step(hash, unit) == ToInt32(31 * hash + unit)
  {
    var a := ToInt32(hash);
    var shifted := ToInt32(a * 32);
    assert (shifted - a * 32) % TwoTo32 == 0;
    assert (a - hash) % TwoTo32 == 0;
    var ka := (a - hash) / TwoTo32;
    assert a == hash + ka * TwoTo32;
    assert a * 32 == hash * 32 + (ka * 32) * TwoTo32;
    var ks := (shifted - a * 32) / TwoTo32;
    assert shifted == a * 32 + ks * TwoTo32;
    assert (shifted - hash + unit) - (31 * hash + unit) == (ks + ka * 32) * TwoTo32;
    ModShift(0, ks + ka * 32);
    ToInt32Congruent(shifted - hash + unit, 31 * hash + unit);
  }

  /** A UTF-16 code unit, as `charCodeAt` returns. */
  predicate IsCodeUnit(u: int)
  {
    0 <= u < 0x1_0000
  }

  /** The UTF-16 code units of a string of Unicode scalar values, as JavaScript holds it. */
  function Utf16(s: string): (r: seq<int>)
    ensures forall i :: 0 <= i < |r| ==> IsCodeUnit(r[i])
    ensures |r| >= |s|
    decreases |s|
  {
    if s == [] then []
    else
      var c := s[0] as int;
      var head := if c < 0x1_0000 then [c]
                  else [0xD800 + (c - 0x1_0000) / 0x400, 0xDC00 + (c - 0x1_0000) % 0x400];
      head + Utf16(s[1..])
  }

  /** The hash a loop over `units` computes, starting from 0. */
  function Hash(units: seq<int>): (h: int)
    ensures -TwoTo31 <= h < TwoTo31
    ensures units == [] ==> h == 0
    decreases |units|
  {
    if units == [] then 0 else Step(Hash(units[..|units| - 1]), units[|units| - 1])
  }

  /** The hash obeys h0 = 0 and h(i+1) = ToInt32(31 * h(i) + unit(i)), always a 32-bit value. */
  lemma HashRecurrence(units: seq<int>, u: int)
    ensures Hash([]) == 0
    ensures Hash(units + [u]) == ToInt32(31 * Hash(units) + u)
    ensures -TwoTo31 <= Hash(units + [u]) < TwoTo31
  {
    assert (units + [u])[..|units|] == units;
    StepIsTimes31(Hash(units), u);
  }

  /** `Math.abs(hash) % hospitalColors.length`. */
  function PaletteIndex(hash: int): (i: nat)
    ensures 0 <= i < |Palette|
    ensures hash == -TwoTo31 ==> i == 8
  {
    (if hash < 0 then -hash else hash) % |Palette|
  }

  /** The empty id hashes to 0 and gets the first scheme. */
  lemma EmptyIdIsFirstScheme()
    ensures Hash(Utf16("")) == 0 && Palette[PaletteIndex(Hash(Utf16("")))] == Palette[0]
  {
  }

  /** `getHospitalColor`: the loop over the id's code units, then the palette lookup. */
  method GetHospitalColor(id: string) returns (scheme: ColorScheme)
    ensures scheme == Palette[PaletteIndex(Hash(Utf16(id)))]
  {
    var units := Utf16(id);
    var hash := 0;
    for i := 0 to |units|
      invariant hash == Hash(units[..i])
    {
      assert units[..i + 1][..i] == units[..i];
      hash := Step(hash, units[i]);
    }
    assert units[..|units|] == units;
    scheme := Palette[PaletteIndex(hash)];
  }

  /** `index % hospitalColors.length` with JavaScript's remainder, which takes the sign of `index`. */
  /** The quotient rounded toward zero, as `Math.trunc(a / b)`. */
  function TruncatedQuotient(a: int, b: int): int
    requires b > 0
  {
    if a >= 0 then a / b else -((-a) / b)
  }

  function JsRemainder(a: int, b: int): (r: int)
    requires b > 0
    ensures -b < r < b
    ensures a >= 0 ==> r >= 0
    ensures a < 0 ==> r <= 0
    ensures a == b * TruncatedQuotient(a, b) + r
  {
    if a >= 0 then a % b
    else
      var q, m := (-a) / b, (-a) % b;
      assert -a == b * q + m;
      assert b * (-q) == -(b * q);
      -m
  }

  /**
   * `getHospitalColorByIndex`: for a non-negative index the scheme at index mod 10; a
   * negative index whose remainder is not zero reads past the array (`undefined`).
   */
  function GetHospitalColorByIndex(index: int): (r: Option<ColorScheme>)
    ensures index >= 0 ==> r == Some(Palette[index % 10])
    ensures index < 0 ==> (r.Some? <==> index % 10 == 0)
  {
    var k := JsRemainder(index, |Palette|);
    if 0 <= k then Some(Palette[k]) else None
  }

  /** Lookup by index repeats every ten positions. */
  lemma ByIndexPeriodic(index: nat)
    ensures GetHospitalColorByIndex(index + 10) == GetHospitalColorByIndex(index)
  {
  }

  /** `useHospitalColor`: grey without a (truthy) id, otherwise the hashed scheme. */
  method UseHospitalColor(id: Option<string>) returns (scheme: ColorScheme)
    ensures !Truthy(id) ==> scheme == Grey
    ensures Truthy(id) ==> scheme == Palette[PaletteIndex(Hash(Utf16(id.value)))]
  {
    if !Truthy(id) {
      return Grey;
    }
    scheme := GetHospitalColor(id.value);
  }
}

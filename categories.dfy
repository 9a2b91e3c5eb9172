/**
 * FlightCategory and the colour policy. In the source a category is the
 * string naming it; here it is a datatype with `Name` giving that string.
 * Both lookups of the source are dictionaries read with `.get(key,
 * default)`; a dictionary is modelled by its list of entries.
 */
module Categories {
  import opened Palette

  datatype Category = Unknown | VFR | MVFR | IFR | LIFR

  /** The string the source uses for each category. */
  function Name(c: Category): string
  {
    match c
    case Unknown => "UNKNOWN"
    case VFR => "VFR"
    case MVFR => "MVFR"
    case IFR => "IFR"
    case LIFR => "LIFR"
  }

  /** `dict.get(key, default)` on the dictionary with these entries. */
  function Get<V>(entries: seq<(string, V)>, key: string, default: V): V
  {
    if entries == [] then default
    else if entries[0].0 == key then entries[0].1
    else Get(entries[1..], key, default)
  }

  /** A key of the dictionary maps to its value, keys being distinct. */
  lemma {:induction false} GetPresent<V>(entries: seq<(string, V)>, k: nat, default: V)
    requires k < |entries|
    requires forall i, j :: 0 <= i < j < |entries| ==> entries[i].0 != entries[j].0
    ensures Get(entries, entries[k].0, default) == entries[k].1
  {
    if k > 0 {
      GetPresent(entries[1..], k - 1, default);
    }
  }

  /** A key that is not in the dictionary gets the default. */
  lemma {:induction false} GetAbsent<V>(entries: seq<(string, V)>, key: string, default: V)
    requires forall i :: 0 <= i < |entries| ==> entries[i].0 != key
    ensures Get(entries, key, default) == default
  {
    if entries != [] {
      GetAbsent(entries[1..], key, default);
    }
  }

  /** The dictionary of FlightCategory.from_string. */
  const CATEGORY_MAP: seq<(string, Category)> :=
    [("UNKNOWN", Unknown), ("VFR", VFR), ("MVFR", MVFR), ("IFR", IFR), ("LIFR", LIFR)]

  /** The dictionary of Airport._get_color_from_flight_category. */
  const COLOR_MAP: seq<(string, int)> :=
    [("VFR", GREEN), ("MVFR", BLUE), ("IFR", RED), ("LIFR", PURPLE), ("UNKNOWN", YELLOW)]

  /** FlightCategory.from_string. */
  function FromString(s: string): Category
  {
    Get(CATEGORY_MAP, s, Unknown)
  }

  /** The names of the four known categories. */
  predicate KnownName(s: string)
  {
    s == "VFR" || s == "MVFR" || s == "IFR" || s == "LIFR"
  }

  /** from_string gives a known category exactly for the four names, and
      then the category of that name; everything else is UNKNOWN. */
  lemma FromStringSpec(s: string)
    ensures FromString(s) != Unknown ==> Name(FromString(s)) == s
    ensures FromString(s) == Unknown <==> !KnownName(s)
  {
    var keys := CATEGORY_MAP;
    assert forall i, j :: 0 <= i < j < |keys| ==> keys[i].0 != keys[j].0;
    if s == "UNKNOWN" {
      GetPresent(keys, 0, Unknown);
    } else if s == "VFR" {
      GetPresent(keys, 1, Unknown);
    } else if s == "MVFR" {
      GetPresent(keys, 2, Unknown);
    } else if s == "IFR" {
      GetPresent(keys, 3, Unknown);
    } else if s == "LIFR" {
      GetPresent(keys, 4, Unknown);
    } else {
      GetAbsent(keys, s, Unknown);
    }
  }

  /** Parsing a category's own name gives the category back. */
  lemma FromStringName(c: Category)
    ensures FromString(Name(c)) == c
  {
    FromStringSpec(Name(c));
  }

  /** Airport._get_color_from_flight_category, on the category's string. */
  function ColorFor(name: string): int
  {
    Get(COLOR_MAP, name, YELLOW)
  }

  /** The colour shown for a category. */
  function ColorOf(c: Category): int
  {
    ColorFor(Name(c))
  }

  /** The colour table: green, blue, red and purple for the four known
      categories, yellow for UNKNOWN and for every string the colour map does
      not know, which is the colour of the category from_string makes of it. */
  lemma ColorTable(s: string)
    ensures ColorOf(VFR) == 0x00FF00 && ColorOf(MVFR) == 0x0000FF
    ensures ColorOf(IFR) == 0xFF0000 && ColorOf(LIFR) == 0xFF00FF
    ensures ColorOf(Unknown) == 0xFF2200
    ensures ColorFor(s) == YELLOW <==> !KnownName(s)
    ensures ColorFor(s) == ColorOf(FromString(s))
  {
    var keys := COLOR_MAP;
    assert forall i, j :: 0 <= i < j < |keys| ==> keys[i].0 != keys[j].0;
    GetPresent(keys, 0, YELLOW);
    GetPresent(keys, 1, YELLOW);
    GetPresent(keys, 2, YELLOW);
    GetPresent(keys, 3, YELLOW);
    GetPresent(keys, 4, YELLOW);
    FromStringSpec(s);
    if !KnownName(s) {
      if s != "UNKNOWN" {
        GetAbsent(keys, s, YELLOW);
      }
    }
  }

  /** Distinct categories are shown in distinct colours, so the colour an
      LED shows determines the category it displays. */
  lemma ColorsDistinct(c1: Category, c2: Category)
    ensures ColorOf(c1) == ColorOf(c2) <==> c1 == c2
  {
    ColorTable("");
  }

  /** Each colour of the policy is a 24-bit colour, so set_color writes bytes for it. */
  lemma ColorsFit(c: Category)
    ensures 0 <= ColorOf(c) < 0x100_0000
  {
    ColorTable("");
  }
}

/**
 * The address step of `MemoryViewModel.fetchAddress`: the first geocoder
 * result's sub-locality, sub-admin area and admin area are joined with ", ",
 * gaps between commas are collapsed, and stray commas at either end are
 * removed. A lookup that yields nothing, or that throws, falls back to one of
 * two fixed strings.
 */
module AddressFormat {
  import opened Wrappers
  import opened KotlinText

  const UnknownLocation := "Unknown Location"
  const ServiceNotReady := "Location service not ready"

  /** The three fields of an `android.location.Address` that are used; each may be null. */
  datatype GeoAddress = GeoAddress(
    subLocality: Option<string>,
    subAdminArea: Option<string>,
    adminArea: Option<string>)

  /** What `Geocoder.getFromLocation` did: returned a (nullable) list, or threw. */
  datatype GeocodeOutcome = Returned(addresses: Option<seq<GeoAddress>>) | Threw

  /** The first index at or after `i` that is not matched by `\s`, or `|s|`. */
  function SkipRegexSpace(s: string, i: nat): (k: nat)
    requires i <= |s|
    ensures i <= k <= |s|
    ensures forall j :: i <= j < k ==> IsRegexSpace(s[j])
    ensures k < |s| ==> !IsRegexSpace(s[k])
    decreases |s| - i
  {
    if i < |s| && IsRegexSpace(s[i]) then SkipRegexSpace(s, i + 1) else i
  }

  /**
   * `s.replace(Regex(",\\s*,"), ",")`: scanning left to right, every comma
   * followed by optional `\s` characters and a second comma becomes a single
   * comma; scanning resumes after the second comma.
   */
  function CollapseCommaGaps(s: string): (r: string)
    decreases |s|
  {
    if s == [] then []
    else if s[0] == ',' && SkipRegexSpace(s, 1) < |s| && s[SkipRegexSpace(s, 1)] == ',' then
      "," + CollapseCommaGaps(s[SkipRegexSpace(s, 1) + 1..])
    else
      [s[0]] + CollapseCommaGaps(s[1..])
  }

  /** The whole string pipeline applied to the three fields (null already mapped to ""). */
  function FormatFields(a: string, b: string, c: string): string {
    Tidy(CollapseCommaGaps(a + (", " + (b + (", " + c)))))
  }

  /** `.trim().removePrefix(",").trim().removeSuffix(",")` */
  function Tidy(s: string): string {
    RemoveTrailingComma(Trim(RemoveLeadingComma(Trim(s))))
  }

  /** The address text `fetchAddress` stores for a geocoder outcome. */
  function ResolveAddress(outcome: GeocodeOutcome): (r: string) {
    match outcome
    case Threw => ServiceNotReady
    case Returned(None) => UnknownLocation
    case Returned(Some(list)) =>
      if |list| == 0 then UnknownLocation
      else FormatFields(list[0].subLocality.GetOr(""), list[0].subAdminArea.GetOr(""),
                        list[0].adminArea.GetOr(""))
  }

  // ----- the reference definition: non-empty fields joined by ", " -----

  /** A field as geocoders deliver it: no comma, no whitespace at either end. */
  predicate Clean(f: string) {
    (forall i :: 0 <= i < |f| ==> f[i] != ',') &&
    (f == [] || (!IsWhitespace(f[0]) && !IsWhitespace(f[|f| - 1])))
  }

  function NonEmpty(fields: seq<string>): (r: seq<string>)
    ensures forall f :: f in r <==> f in fields && f != ""
  {
    if fields == [] then []
    else (if fields[0] == "" then [] else [fields[0]]) + NonEmpty(fields[1..])
  }

  function JoinWithComma(parts: seq<string>): string {
    if |parts| == 0 then ""
    else if |parts| == 1 then parts[0]
    else parts[0] + (", " + JoinWithComma(parts[1..]))
  }

  // ----- proof of the pipeline against the reference -----

  lemma CollapseCommaFreePrefix(x: string, s: string)
    requires forall i :: 0 <= i < |x| ==> x[i] != ','
    ensures CollapseCommaGaps(x + s) == x + CollapseCommaGaps(s)
    decreases |x|
  {
    if x != [] {
      assert (x + s)[1..] == x[1..] + s;
      CollapseCommaFreePrefix(x[1..], s);
    } else {
      assert x + s == s;
    }
  }

  /** A separator ", " followed by a non-comma, non-space start survives unchanged. */
  lemma CollapseSeparator(y: string)
    requires y == [] || (y[0] != ',' && !IsRegexSpace(y[0]))
    ensures CollapseCommaGaps(", " + y) == ", " + CollapseCommaGaps(y)
  {
    var s := ", " + y;
    assert SkipRegexSpace(s, 2) == 2;
    assert SkipRegexSpace(s, 1) == 2;
    assert s[1..] == " " + y;
    assert (" " + y)[1..] == y;
  }

  /** Two separators with nothing between them collapse to one. */
  lemma CollapseDoubleSeparator(y: string)
    requires y == [] || (y[0] != ',' && !IsRegexSpace(y[0]))
    ensures CollapseCommaGaps(", , " + y) == ", " + CollapseCommaGaps(y)
  {
    var s := ", , " + y;
    assert SkipRegexSpace(s, 2) == 2;
    assert SkipRegexSpace(s, 1) == 2;
    assert s[3..] == " " + y;
    assert (" " + y)[1..] == y;
  }

  lemma CollapseClean(f: string)
    requires Clean(f)
    ensures CollapseCommaGaps(f) == f
  {
    CollapseCommaFreePrefix(f, []);
    assert f + [] == f;
  }

  lemma CleanStart(f: string)
    requires Clean(f)
    ensures f == [] || (f[0] != ',' && !IsRegexSpace(f[0]))
  {
    if f != [] && IsRegexSpace(f[0]) {
      RegexSpaceIsWhitespace(f[0]);
    }
  }

  /** With an empty middle field the two separators collapse into one. */
  lemma CollapsedJoinGap(a: string, c: string)
    requires Clean(a) && Clean(c)
    ensures CollapseCommaGaps(a + (", " + ("" + (", " + c)))) == a + (", " + c)
  {
    CleanStart(c);
    CollapseClean(c);
    assert "" + (", " + c) == ", " + c;
    assert ", " + (", " + c) == ", , " + c;
    CollapseCommaFreePrefix(a, ", , " + c);
    CollapseDoubleSeparator(c);
  }

  /** With a non-empty middle field nothing collapses. */
  lemma CollapsedJoinFull(a: string, b: string, c: string)
    requires Clean(a) && Clean(b) && Clean(c) && b != ""
    ensures CollapseCommaGaps(a + (", " + (b + (", " + c)))) == a + (", " + (b + (", " + c)))
  {
    CleanStart(b);
    CleanStart(c);
    CollapseClean(c);
    var tail := b + (", " + c);
    CollapseSeparator(c);
    CollapseCommaFreePrefix(b, ", " + c);
    CollapseSeparator(tail);
    CollapseCommaFreePrefix(a, ", " + tail);
  }

  lemma TrimEndDropsSpace(x: string)
    ensures TrimEnd(x + " ") == TrimEnd(x)
  {
    assert (x + " ")[..|x|] == x;
  }

  lemma TrimStartDropsSpace(x: string)
    ensures TrimStart(" " + x) == TrimStart(x)
  {
    assert (" " + x)[1..] == x;
  }

  /** A non-empty text with neither whitespace nor a comma at either end. */
  predicate Core(core: string) {
    core != [] &&
    !IsWhitespace(core[0]) && !IsWhitespace(core[|core| - 1]) &&
    core[0] != ',' && core[|core| - 1] != ','
  }

  lemma TidyCore(core: string)
    requires Core(core)
    ensures Tidy(core) == core
  {
    TrimUntouched(core);
  }

  lemma TidyLead(core: string)
    requires Core(core)
    ensures Tidy(", " + core) == core
  {
    var s := ", " + core;
    TrimUntouched(s);
    assert s[1..] == " " + core;
    TrimStartDropsSpace(core);
    TrimUntouched(core);
  }

  lemma TidyTrail(core: string)
    requires Core(core)
    ensures Tidy(core + ", ") == core
  {
    var t := core + ",";
    assert core + ", " == t + " ";
    TrimEndDropsSpace(t);
    TrimUntouched(t);
    assert t[..|t| - 1] == core;
  }

  lemma TidyBoth(core: string)
    requires Core(core)
    ensures Tidy(", " + (core + ", ")) == core
  {
    var t := ", " + (core + ",");
    assert ", " + (core + ", ") == t + " ";
    TrimEndDropsSpace(t);
    TrimUntouched(t);
    var u := core + ",";
    assert t[1..] == " " + u;
    TrimStartDropsSpace(u);
    TrimUntouched(u);
    assert u[..|u| - 1] == core;
  }

  lemma TidyLoneSeparator()
    ensures Tidy(", ") == ""
  {
    assert ", " == "," + " ";
    TrimEndDropsSpace(",");
  }

  lemma CleanCore(f: string)
    requires Clean(f) && f != ""
    ensures Core(f)
  {
  }

  lemma JoinedCore(a: string, b: string)
    requires Core(a) && Core(b)
    ensures Core(a + (", " + b))
  {
  }

  lemma NonEmptyOfThree(a: string, b: string, c: string)
    ensures NonEmpty([a, b, c]) ==
      (if a == "" then [] else [a]) + (if b == "" then [] else [b]) + (if c == "" then [] else [c])
  {
    assert [a, b, c][1..] == [b, c] && [b, c][1..] == [c] && [c][1..] == [];
    assert NonEmpty([c]) == (if c == "" then [] else [c]) + NonEmpty([]);
  }

  lemma FormatGap(a: string, c: string)
    requires Clean(a) && Clean(c)
    ensures FormatFields(a, "", c) ==
      JoinWithComma((if a == "" then [] else [a]) + (if c == "" then [] else [c]))
  {
    var collapsed := a + (", " + c);
    assert FormatFields(a, "", c) == Tidy(collapsed) by {
      CollapsedJoinGap(a, c);
    }
    if a != "" && c != "" {
      assert Tidy(collapsed) == collapsed by {
        CleanCore(a);
        CleanCore(c);
        JoinedCore(a, c);
        TidyCore(collapsed);
      }
      assert [a] + [c] == [a, c];
    } else if a != "" {
      assert Tidy(collapsed) == a by {
        assert collapsed == a + ", ";
        CleanCore(a);
        TidyTrail(a);
      }
      assert [a] + [] == [a];
    } else if c != "" {
      assert Tidy(collapsed) == c by {
        assert collapsed == ", " + c;
        CleanCore(c);
        TidyLead(c);
      }
      assert [] + [c] == [c];
    } else {
      assert Tidy(collapsed) == "" by {
        assert collapsed == ", ";
        TidyLoneSeparator();
      }
    }
  }

  lemma FormatAllThree(a: string, b: string, c: string)
    requires Clean(a) && Clean(b) && Clean(c) && a != "" && b != "" && c != ""
    ensures FormatFields(a, b, c) == JoinWithComma([a, b, c])
  {
    var collapsed := a + (", " + (b + (", " + c)));
    assert FormatFields(a, b, c) == Tidy(collapsed) by {
      CollapsedJoinFull(a, b, c);
    }
    assert Tidy(collapsed) == collapsed by {
      CleanCore(a);
      CleanCore(b);
      CleanCore(c);
      JoinedCore(b, c);
      JoinedCore(a, b + (", " + c));
      TidyCore(collapsed);
    }
    assert JoinWithComma([a, b, c]) == collapsed by {
      assert [a, b, c][1..] == [b, c] && [b, c][1..] == [c];
      assert JoinWithComma([b, c]) == b + (", " + c);
    }
  }

  lemma FirstTwoCollapsed(a: string, b: string)
    requires Clean(a) && Clean(b) && b != ""
    ensures FormatFields(a, b, "") == Tidy(a + (", " + b) + ", ")
  {
    CollapsedJoinFull(a, b, "");
    assert a + (", " + (b + (", " + ""))) == a + (", " + b) + ", ";
  }

  lemma FirstTwoTidied(a: string, b: string)
    requires Clean(a) && Clean(b) && a != "" && b != ""
    ensures Tidy(a + (", " + b) + ", ") == a + (", " + b)
  {
    CleanCore(a);
    CleanCore(b);
    JoinedCore(a, b);
    TidyTrail(a + (", " + b));
  }

  lemma FormatFirstTwo(a: string, b: string)
    requires Clean(a) && Clean(b) && a != "" && b != ""
    ensures FormatFields(a, b, "") == JoinWithComma([a, b])
  {
    FirstTwoCollapsed(a, b);
    FirstTwoTidied(a, b);
    assert [a, b][1..] == [b];
  }

  lemma FormatLastTwo(b: string, c: string)
    requires Clean(b) && Clean(c) && b != "" && c != ""
    ensures FormatFields("", b, c) == JoinWithComma([b, c])
  {
    var core := b + (", " + c);
    assert FormatFields("", b, c) == Tidy(", " + core) by {
      CollapsedJoinFull("", b, c);
      assert "" + (", " + core) == ", " + core;
    }
    assert Tidy(", " + core) == core by {
      CleanCore(b);
      CleanCore(c);
      JoinedCore(b, c);
      TidyLead(core);
    }
    assert [b, c][1..] == [c];
  }

  lemma FormatMiddleOnly(b: string)
    requires Clean(b) && b != ""
    ensures FormatFields("", b, "") == JoinWithComma([b])
  {
    assert FormatFields("", b, "") == Tidy(", " + (b + ", ")) by {
      CollapsedJoinFull("", b, "");
      assert "" + (", " + (b + (", " + ""))) == ", " + (b + ", ");
    }
    assert Tidy(", " + (b + ", ")) == b by {
      CleanCore(b);
      TidyBoth(b);
    }
  }

  lemma FormatFull(a: string, b: string, c: string)
    requires Clean(a) && Clean(b) && Clean(c) && b != ""
    ensures FormatFields(a, b, c) ==
      JoinWithComma((if a == "" then [] else [a]) + [b] + (if c == "" then [] else [c]))
  {
    if a != "" && c != "" {
      FormatAllThree(a, b, c);
      assert [a] + [b] + [c] == [a, b, c];
    } else if a != "" {
      FormatFirstTwo(a, b);
      assert [a] + [b] + [] == [a, b];
    } else if c != "" {
      FormatLastTwo(b, c);
      assert [] + [b] + [c] == [b, c];
    } else {
      FormatMiddleOnly(b);
      assert [] + [b] + [] == [b];
    }
  }

  /**
   * For clean fields the pipeline yields the non-empty fields joined by ", ":
   * "A, B, C" when all three are present, an empty field is skipped without
   * a doubled or dangling comma, and three empty fields give "".
   */
  lemma {:induction false} FormatIsJoinOfNonEmpty(a: string, b: string, c: string)
    requires Clean(a) && Clean(b) && Clean(c)
    ensures FormatFields(a, b, c) == JoinWithComma(NonEmpty([a, b, c]))
  {
    NonEmptyOfThree(a, b, c);
    if b == "" {
      FormatGap(a, c);
      assert (if a == "" then [] else [a]) + [] == (if a == "" then [] else [a]);
    } else {
      FormatFull(a, b, c);
    }
  }

  /** The two fallbacks can always be told apart, and a thrown lookup never reads as an empty one. */
  lemma FallbacksDistinct(list: Option<seq<GeoAddress>>)
    requires list == None || list == Some([])
    ensures ResolveAddress(Returned(list)) == UnknownLocation
    ensures ResolveAddress(Threw) == ServiceNotReady
    ensures ResolveAddress(Returned(list)) != ResolveAddress(Threw)
  {
  }
}

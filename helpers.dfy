/**
 * `get_localized_date` of helpers.py without its I/O: the four translation maps cut out of
 * the integration's "common" translations, the table of the eight strftime directives it
 * localizes, and the single left-to-right substitution of those directives in a format.
 *
 * The translations Home Assistant loads, and the English `strftime` output for the date,
 * are parameters.
 */
module Helpers {
  import opened Text
  import opened Dicts

  const MonthFull := "month.full"
  const MonthShort := "month.short"
  const DayFull := "day.full"
  const DayShort := "day.short"

  /** `f"component.{domain}.common.{group}."`. */
  function TranslationPrefix(domain: string, group: string): (r: string)
    ensures StartsWith(r, "component.") && r[|r| - 1] == '.'
  {
    "component." + domain + ".common." + group + "."
  }

  /** The pairs of one dict comprehension: the translations whose key starts with `prefix`, that prefix replaced by "" in the key. */
  function GroupPairs(translations: seq<(string, string)>, prefix: string): (r: seq<(string, string)>)
    requires prefix != []
    ensures forall q :: q in r <==> exists i :: 0 <= i < |translations| && StartsWith(translations[i].0, prefix)
                                                && q == (Replace(translations[i].0, prefix, ""), translations[i].1)
  {
    if translations == [] then []
    else
      var init := translations[..|translations| - 1];
      var last := translations[|translations| - 1];
      assert forall i :: 0 <= i < |init| ==> init[i] == translations[i];
      GroupPairs(init, prefix) + (if StartsWith(last.0, prefix) then [(Replace(last.0, prefix, ""), last.1)] else [])
  }

  /** One of `month_full`, `month_short`, `day_full`, `day_short`. */
  function TranslationMap(translations: seq<(string, string)>, prefix: string): map<string, string>
    requires prefix != []
  {
    Assign(GroupPairs(translations, prefix))
  }

  /**
   * A map holds exactly the translations under its prefix: every entry comes from a key
   * starting with the prefix, with the prefix removed, and carries that key's text.
   */
  lemma TranslationMapEntries(translations: seq<(string, string)>, prefix: string, key: string)
    requires prefix != []
    ensures key in TranslationMap(translations, prefix) <==>
      exists i :: 0 <= i < |translations| && StartsWith(translations[i].0, prefix)
                  && Replace(translations[i].0, prefix, "") == key
    ensures key in TranslationMap(translations, prefix) ==>
      exists i :: 0 <= i < |translations| && StartsWith(translations[i].0, prefix)
                  && Replace(translations[i].0, prefix, "") == key
                  && TranslationMap(translations, prefix)[key] == translations[i].1
  {
    var pairs := GroupPairs(translations, prefix);
    if key in TranslationMap(translations, prefix) {
      LastAssignmentWins(pairs, key);
      assert pairs[LastIndex(pairs, key)] in pairs;
    } else {
      forall i | 0 <= i < |translations| && StartsWith(translations[i].0, prefix)
        ensures Replace(translations[i].0, prefix, "") != key
      {
        var q := (Replace(translations[i].0, prefix, ""), translations[i].1);
        assert q in pairs;
        var k :| 0 <= k < |pairs| && pairs[k] == q;
      }
    }
  }

  /** A key made of the prefix and a name the prefix does not occur in maps to that name. */
  lemma PrefixStripped(prefix: string, name: string)
    requires prefix != []
    requires forall i :: !OccursAt(name, prefix, i)
    ensures StartsWith(prefix + name, prefix)
    ensures Replace(prefix + name, prefix, "") == name
  {
    assert (prefix + name)[..|prefix|] == prefix;
    ReplaceLeading(prefix, name, "");
  }

  /** What `date_object.strftime(...)` gives in English for `%A %a %B %b %d %m %Y %y`. */
  datatype Strftime = Strftime(
    fullDay: string, shortDay: string, fullMonth: string, shortMonth: string,
    day: string, month: string, year: string, shortYear: string)

  /** The four translation maps. */
  datatype Names = Names(
    dayFull: map<string, string>, dayShort: map<string, string>,
    monthFull: map<string, string>, monthShort: map<string, string>)

  /** The maps get_localized_date cuts out of the translations of `domain`. */
  function NamesOf(translations: seq<(string, string)>, domain: string): Names {
    Names(
      TranslationMap(translations, TranslationPrefix(domain, DayFull)),
      TranslationMap(translations, TranslationPrefix(domain, DayShort)),
      TranslationMap(translations, TranslationPrefix(domain, MonthFull)),
      TranslationMap(translations, TranslationPrefix(domain, MonthShort)))
  }

  /** `m.get(key, fallback)`. */
  function Get(m: map<string, string>, key: string, fallback: string): string {
    if key in m then m[key] else fallback
  }

  /**
   * `translation_map`. Short names are looked up by the English FULL name and fall back to
   * the English short name; the numeric directives are never translated.
   */
  function DirectiveTable(en: Strftime, names: Names): (table: map<string, string>)
    ensures table.Keys == {"%A", "%a", "%B", "%b", "%d", "%m", "%Y", "%y"}
  {
    map[
      "%A" := Get(names.dayFull, en.fullDay, en.fullDay),
      "%a" := Get(names.dayShort, en.fullDay, en.shortDay),
      "%B" := Get(names.monthFull, en.fullMonth, en.fullMonth),
      "%b" := Get(names.monthShort, en.fullMonth, en.shortMonth),
      "%d" := en.day,
      "%m" := en.month,
      "%Y" := en.year,
      "%y" := en.shortYear]
  }

  /** Whatever the translations, `%d %m %Y %y` give the English (numeric) text. */
  lemma NumericDirectivesUntranslated(en: Strftime, names: Names)
    ensures var table := DirectiveTable(en, names);
      table["%d"] == en.day && table["%m"] == en.month && table["%Y"] == en.year && table["%y"] == en.shortYear
  {
  }

  /**
   * Names fall back to English: a full name without a translation stays English, and a
   * short name is translated only when a short translation exists under the full name.
   */
  lemma NamesFallBackToEnglish(en: Strftime, names: Names)
    ensures var table := DirectiveTable(en, names);
      (en.fullDay !in names.dayFull ==> table["%A"] == en.fullDay)
      && (en.fullDay in names.dayFull ==> table["%A"] == names.dayFull[en.fullDay])
      && (en.fullDay !in names.dayShort ==> table["%a"] == en.shortDay)
      && (en.fullDay in names.dayShort ==> table["%a"] == names.dayShort[en.fullDay])
      && (en.fullMonth !in names.monthFull ==> table["%B"] == en.fullMonth)
      && (en.fullMonth in names.monthFull ==> table["%B"] == names.monthFull[en.fullMonth])
      && (en.fullMonth !in names.monthShort ==> table["%b"] == en.shortMonth)
      && (en.fullMonth in names.monthShort ==> table["%b"] == names.monthShort[en.fullMonth])
  {
  }

  /** The letters of `%[aAbBdmYy]`. */
  const DirectiveLetters: set<char> := {'a', 'A', 'b', 'B', 'd', 'm', 'Y', 'y'}

  predicate IsDirective(c: char) {
    c in DirectiveLetters
  }

  /** A directive starts at position `i`. */
  predicate DirectiveAt(s: string, i: int) {
    0 <= i && i + 1 < |s| && s[i] == '%' && IsDirective(s[i + 1])
  }

  /**
   * `re.sub(r"%[aAbBdmYy]", lambda m: table.get(m.group(0), m.group(0)), format)`: matches
   * found left to right without overlap, each replaced by its table entry; the text put in
   * is not searched again.
   */
  function Substitute(format: string, table: map<string, string>): (r: string)
    decreases |format|
  {
    if DirectiveAt(format, 0) then Get(table, format[..2], format[..2]) + Substitute(format[2..], table)
    else if format == [] then []
    else [format[0]] + Substitute(format[1..], table)
  }

  /** A format without directives comes out unchanged. */
  lemma {:induction false} SubstituteNoDirective(format: string, table: map<string, string>)
    requires forall i :: !DirectiveAt(format, i)
    ensures Substitute(format, table) == format
    decreases |format|
  {
    if format != [] {
      assert !DirectiveAt(format, 0);
      forall i
        ensures !DirectiveAt(format[1..], i)
      {
        if DirectiveAt(format[1..], i) {
          assert DirectiveAt(format, i + 1);
        }
      }
      SubstituteNoDirective(format[1..], table);
      assert format == [format[0]] + format[1..];
    }
  }

  /** A format cut after any character but `%` is substituted piece by piece. */
  lemma {:induction false} SubstituteAppend(a: string, b: string, table: map<string, string>)
    requires a == [] || a[|a| - 1] != '%'
    ensures Substitute(a + b, table) == Substitute(a, table) + Substitute(b, table)
    decreases |a|
  {
    if a == [] {
      assert a + b == b;
    } else if DirectiveAt(a, 0) {
      SubstituteAppend(a[2..], b, table);
      AppendAfterDirective(a, b, table);
    } else {
      SubstituteAppend(a[1..], b, table);
      AppendAfterLiteral(a, b, table);
    }
  }

  lemma AppendAfterDirective(a: string, b: string, table: map<string, string>)
    requires DirectiveAt(a, 0)
    requires Substitute(a[2..] + b, table) == Substitute(a[2..], table) + Substitute(b, table)
    ensures Substitute(a + b, table) == Substitute(a, table) + Substitute(b, table)
  {
    var d, rest := a[..2], a[2..];
    assert a == d + rest;
    assert a + b == d + (rest + b);
    SubstituteHead(d, rest, table);
    SubstituteHead(d, rest + b, table);
  }

  /** A directive at the front is replaced by its table text, and the rest substituted after it. */
  lemma SubstituteHead(d: string, rest: string, table: map<string, string>)
    requires |d| == 2 && DirectiveAt(d, 0)
    ensures Substitute(d + rest, table) == Get(table, d, d) + Substitute(rest, table)
  {
    var s := d + rest;
    assert DirectiveAt(s, 0);
    assert s[..2] == d && s[2..] == rest;
  }

  lemma AppendAfterLiteral(a: string, b: string, table: map<string, string>)
    requires a != [] && !DirectiveAt(a, 0) && a[|a| - 1] != '%'
    requires Substitute(a[1..] + b, table) == Substitute(a[1..], table) + Substitute(b, table)
    ensures Substitute(a + b, table) == Substitute(a, table) + Substitute(b, table)
  {
    var ab := a + b;
    assert !DirectiveAt(ab, 0);
    assert ab[1..] == a[1..] + b;
  }

  /**
   * Single pass: a directive is replaced by its table text verbatim, even when that text
   * holds a directive itself, and the surrounding text is substituted independently.
   */
  lemma SubstituteDirective(a: string, d: string, b: string, table: map<string, string>)
    requires a == [] || a[|a| - 1] != '%'
    requires |d| == 2 && d[0] == '%' && IsDirective(d[1])
    ensures Substitute(a + d + b, table) == Substitute(a, table) + Get(table, d, d) + Substitute(b, table)
  {
    var db := d + b;
    assert Substitute(db, table) == Get(table, d, d) + Substitute(b, table) by {
      assert DirectiveAt(d, 0);
      SubstituteHead(d, b, table);
    }
    assert Substitute(a + db, table) == Substitute(a, table) + Substitute(db, table) by {
      SubstituteAppend(a, db, table);
    }
    assert a + d + b == a + db;
  }

  /** A `%` before any other character is copied, and scanning resumes at that character. */
  lemma SubstituteOtherPercent(c: char, rest: string, table: map<string, string>)
    requires !IsDirective(c)
    ensures Substitute("%" + [c] + rest, table) == "%" + Substitute([c] + rest, table)
  {
    var s := "%" + [c] + rest;
    assert !DirectiveAt(s, 0);
    assert s[1..] == [c] + rest;
  }

  /** `get_localized_date` once the translations are loaded. */
  function LocalizedDate(translations: seq<(string, string)>, domain: string, en: Strftime, format: string): (r: string)
    ensures (forall i :: !DirectiveAt(format, i)) ==> r == format
  {
    var table := DirectiveTable(en, NamesOf(translations, domain));
    assert (forall i :: !DirectiveAt(format, i)) ==> Substitute(format, table) == format by {
      if forall i :: !DirectiveAt(format, i) {
        SubstituteNoDirective(format, table);
      }
    }
    Substitute(format, table)
  }
}

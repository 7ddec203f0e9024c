/**
 * TDateFormat: the resolution of the stored Pattern property against the table
 * of named presets, including the "date time" form that names one preset for
 * the date part and one for the time part, and the choice of formatter.
 */
module DateFormat {
  import opened Wrappers
  import opened Text
  import opened Formatting

  /** The preset names and their one-letter shorthands, in table order. */
  const PatternPresets: seq<(string, string)> := [
    ("fulldate", "P"), ("full", "P"),
    ("longdate", "D"), ("long", "d"),
    ("mediumdate", "p"), ("medium", "p"),
    ("shortdate", "d"), ("short", "d"),
    ("fulltime", "Q"), ("longtime", "T"),
    ("mediumtime", "q"), ("shorttime", "t")
  ]

  /** The shorthand of the first entry of `table` named `key`. */
  function Lookup(table: seq<(string, string)>, key: string): Option<string> {
    if table == [] then None
    else if table[0].0 == key then Some(table[0].1)
    else Lookup(table[1..], key)
  }

  /** The lookup finds an entry exactly when one is named `key`, and answers the first such entry. */
  lemma {:induction false} LookupFindsFirst(table: seq<(string, string)>, key: string)
    ensures Lookup(table, key).None? <==> forall i :: 0 <= i < |table| ==> table[i].0 != key
    ensures Lookup(table, key).Some? ==>
              exists i :: 0 <= i < |table| && table[i] == (key, Lookup(table, key).value) &&
                          forall j :: 0 <= j < i ==> table[j].0 != key
  {
    if table != [] && table[0].0 != key {
      LookupFindsFirst(table[1..], key);
      assert forall i :: 1 <= i < |table| ==> table[i] == table[1..][i - 1];
      if Lookup(table, key).Some? {
        var i :| 0 <= i < |table[1..]| && table[1..][i] == (key, Lookup(table, key).value) &&
                 forall j :: 0 <= j < i ==> table[1..][j].0 != key;
        assert table[i + 1] == (key, Lookup(table, key).value);
        assert forall j :: 1 <= j < i + 1 ==> table[j] == table[1..][j - 1];
      }
    } else if table != [] {
      assert table[0] == (key, Lookup(table, key).value);
    }
  }

  /** getPreset: the shorthand named by `name`, compared case-insensitively; None for an unknown name. */
  function GetPreset(name: string): (r: Option<string>)
    ensures r.Some? ==> |r.value| == 1 && |name| >= 4
  {
    var key := ToLower(name);
    var r := Lookup(PatternPresets, key);
    LookupFindsFirst(PatternPresets, key);
    r
  }

  /** A name is a preset exactly when its lower-cased form is in the table, and the shorthand is that entry's. */
  lemma GetPresetCases(name: string)
    ensures GetPreset(name).Some? <==>
              exists i :: 0 <= i < |PatternPresets| && PatternPresets[i].0 == ToLower(name)
    ensures GetPreset(name).Some? ==>
              exists i :: 0 <= i < |PatternPresets| && PatternPresets[i] == (ToLower(name), GetPreset(name).value)
  {
    LookupFindsFirst(PatternPresets, ToLower(name));
  }

  /** The lookup ignores case: a name and its lower-cased form name the same preset. */
  lemma GetPresetIgnoresCase(name: string)
    ensures GetPreset(name) == GetPreset(ToLower(name))
  {
    ToLowerIdempotent(name);
  }

  /** No name in `table` holds a space. */
  predicate NamesWithoutSpace(table: seq<(string, string)>) {
    forall i :: 0 <= i < |table| ==> ' ' !in table[i].0
  }

  lemma PresetNamesWithoutSpace()
    ensures NamesWithoutSpace(PatternPresets)
  {
    assert ' ' !in "fulldate" && ' ' !in "full" && ' ' !in "longdate" && ' ' !in "long";
    assert ' ' !in "mediumdate" && ' ' !in "medium" && ' ' !in "shortdate" && ' ' !in "short";
    assert ' ' !in "fulltime" && ' ' !in "longtime" && ' ' !in "mediumtime" && ' ' !in "shorttime";
  }

  /** No preset name holds a space, so a name with a space is never a preset. */
  lemma {:induction false} SpacedNameIsNoPreset(name: string)
    requires ' ' in name
    ensures GetPreset(name).None?
  {
    var i :| 0 <= i < |name| && name[i] == ' ';
    assert ' ' in ToLower(name) by {
      assert ToLower(name)[i] == ' ';
    }
    PresetNamesWithoutSpace();
    LookupFindsFirst(PatternPresets, ToLower(name));
  }

  /** 'long' names the short date shorthand while 'longdate' names the long one, as the table is written. */
  lemma LongIsNotLongDate(long: string, longDate: string)
    requires ToLower(long) == "long" && ToLower(longDate) == "longdate"
    ensures GetPreset(long) == Some("d") && GetPreset(longDate) == Some("D")
  {
  }

  // ---------------------------------------------------------------- explode(' ', s, 2)

  /** explode with limit 2: the text before the first space and everything after it, or the whole text. */
  function ExplodeFirstSpace(s: string): (parts: seq<string>)
    ensures |parts| == 1 || |parts| == 2
    ensures |parts| == 1 <==> ' ' !in s
    ensures |parts| == 1 ==> parts[0] == s
    ensures |parts| == 2 ==> s == parts[0] + " " + parts[1] && ' ' !in parts[0]
  {
    IndexOfIsFirst(s, " ");
    match IndexOf(s, " ")
    case None =>
      assert forall j :: 0 <= j < |s| ==> (s[j] == ' ' <==> MatchesAt(s, " ", j));
      [s]
    case Some(i) =>
      assert s[i..i + 1] == " ";
      assert forall j :: 0 <= j < i ==> (s[j] == ' ' <==> MatchesAt(s, " ", j));
      assert s == s[..i] + " " + s[i + 1..] by {
        assert s[..i] + s[i..i + 1] + s[i + 1..] == s;
      }
      [s[..i], s[i + 1..]]
  }

  // ---------------------------------------------------------------- getPattern

  /** What getPattern hands to the date formatter. */
  datatype Pattern =
    | DateTime(date: string, time: string)  // the two-element array of shorthands
    | Single(pattern: string)               // one shorthand, or the stored text itself
    | NoPattern                             // null: the formatter's default

  /** The two halves of s at its first space both name presets. */
  predicate IsPresetPair(s: string) {
    var parts := ExplodeFirstSpace(s);
    |parts| == 2 && GetPreset(parts[0]).Some? && GetPreset(parts[1]).Some?
  }

  /** getPattern over the stored Pattern text. */
  function ResolvePattern(stored: string): (r: Pattern)
    ensures r.NoPattern? <==> stored == ""
    ensures r.DateTime? ==> |r.date| == 1 && |r.time| == 1
    ensures r.Single? ==> r.pattern != ""
  {
    var parts := ExplodeFirstSpace(stored);
    if IsPresetPair(stored) then
      DateTime(GetPreset(parts[0]).value, GetPreset(parts[1]).value)
    else
      match GetPreset(stored)
      case Some(p) => Single(p)
      case None => if stored == "" then NoPattern else Single(stored)
  }

  /** "date time" where both names are presets resolves to the pair of their shorthands. */
  lemma PresetPairResolves(date: string, time: string)
    requires ' ' !in date
    requires GetPreset(date).Some? && GetPreset(time).Some?
    ensures ResolvePattern(date + " " + time) == DateTime(GetPreset(date).value, GetPreset(time).value)
  {
    var s := date + " " + time;
    assert s[|date|] == ' ';
    var parts := ExplodeFirstSpace(s);
    FirstSpaceSplitIsUnique(s, parts[0], parts[1], date, time);
  }

  lemma FirstSpaceSplitIsUnique(s: string, a: string, b: string, c: string, d: string)
    requires s == a + " " + b && ' ' !in a
    requires s == c + " " + d && ' ' !in c
    ensures a == c && b == d
  {
    assert |a| == |c| by {
      assert forall k :: 0 <= k < |a| ==> s[k] == a[k] != ' ';
      assert forall k :: 0 <= k < |c| ==> s[k] == c[k] != ' ';
      assert s[|a|] == ' ' && s[|c|] == ' ';
    }
    assert a == s[..|a|] && c == s[..|c|];
    assert b == s[|a| + 1..] && d == s[|c| + 1..];
  }

  /**
   * Only the first space splits: when the part after it holds another space it
   * is no preset, and the whole text, holding a space, is no preset either, so
   * the text is handed on unchanged.
   */
  lemma OnlyFirstSpaceSplits(date: string, rest: string)
    requires ' ' !in date && ' ' in rest
    ensures ResolvePattern(date + " " + rest) == Single(date + " " + rest)
  {
    var s := date + " " + rest;
    assert s[|date|] == ' ';
    var parts := ExplodeFirstSpace(s);
    FirstSpaceSplitIsUnique(s, parts[0], parts[1], date, rest);
    SpacedNameIsNoPreset(rest);
    SpacedNameIsNoPreset(s);
  }

  /** A single name that is a preset resolves to its shorthand. */
  lemma SinglePresetResolves(name: string)
    requires GetPreset(name).Some?
    ensures ResolvePattern(name) == Single(GetPreset(name).value)
  {
    if ' ' in name {
      SpacedNameIsNoPreset(name);
    }
  }

  /** Text that is neither a preset pair nor a preset is handed to the formatter unchanged. */
  lemma UnknownPatternIsKept(s: string)
    requires s != "" && !IsPresetPair(s) && GetPreset(s).None?
    ensures ResolvePattern(s) == Single(s)
  {
  }

  /** A pair only ever comes from a first-space split into two preset names. */
  lemma DateTimeComesFromPresetPair(s: string)
    requires ResolvePattern(s).DateTime?
    ensures exists i :: 0 <= i < |s| && s[i] == ' ' && ' ' !in s[..i] &&
                        GetPreset(s[..i]) == Some(ResolvePattern(s).date) &&
                        GetPreset(s[i + 1..]) == Some(ResolvePattern(s).time)
  {
    var parts := ExplodeFirstSpace(s);
    var i := |parts[0]|;
    assert s[i] == ' ';
    assert s[..i] == parts[0];
    assert s[i + 1..] == parts[1];
  }

  // ---------------------------------------------------------------- getValue

  /** What getValue answers: the stored text, or the current time. */
  datatype DateValue = Timestamp(seconds: int) | Stored(text: string)

  /** PHP's empty() on a string: the empty string and "0". */
  predicate IsEmptyText(s: string) {
    s == "" || s == "0"
  }

  // ---------------------------------------------------------------- formatter choice

  /** A formatter for the control's own culture is built when that culture is set and differs from the application's. */
  function UsesOwnCulture(culture: string, appCulture: string): (r: bool)
    ensures culture == "" || culture == appCulture ==> !r
    ensures culture != "" && culture != appCulture ==> r
  {
    |culture| > 0 && appCulture != culture
  }

  /** The call getFormattedDate makes on the chosen formatter. */
  datatype FormatCall = FormatCall(culture: string, value: DateValue, pattern: Pattern, charset: string)

  /** A TDateFormat control: the Pattern and Value view-state entries and its culture settings. */
  class DateFormatControl {
    var pattern: string
    var value: string
    var culture: string
    var charset: string

    constructor()
      ensures pattern == "" && value == "" && culture == "" && charset == ""
    {
      pattern, value, culture, charset := "", "", "", "";
    }

    /** setPattern stores the text; getPattern then resolves exactly that text. */
    method SetPattern(text: string)
      modifies this
      ensures pattern == text
      ensures value == old(value) && culture == old(culture) && charset == old(charset)
      ensures GetPattern() == ResolvePattern(text)
    {
      pattern := text;
    }

    /** getPattern: no pattern exactly when none was stored. */
    function GetPattern(): (r: Pattern)
      reads this
      ensures r.NoPattern? <==> pattern == ""
    {
      ResolvePattern(pattern)
    }

    /** setValue: the stored text is what getValue answers from then on, unless it is empty in PHP's sense. */
    method SetValue(text: string)
      modifies this
      ensures value == text
      ensures pattern == old(pattern) && culture == old(culture) && charset == old(charset)
      ensures !IsEmptyText(text) ==> forall now :: GetValue(now) == Stored(text)
    {
      value := text;
    }

    /** getValue: the current time (`now`) when the stored value is empty in PHP's sense. */
    function GetValue(now: int): (r: DateValue)
      reads this
      ensures r.Timestamp? <==> IsEmptyText(value)
      ensures r.Timestamp? ==> r.seconds == now
      ensures r.Stored? ==> r.text == value
    {
      if IsEmptyText(value) then Timestamp(now) else Stored(value)
    }

    /**
     * getFormattedDate: initialises the class-wide formatter when missing and
     * answers the formatting call made, on a formatter for the control's own
     * culture or on the class-wide one.
     */
    method FormattedDate(shared: SharedFormatter, appCulture: string, now: int) returns (call: FormatCall)
      modifies shared
      ensures shared.culture == (if old(shared.culture).Some? then old(shared.culture) else Some(appCulture))
      ensures call.culture == (if UsesOwnCulture(culture, appCulture) then culture else shared.culture.value)
      ensures call.value == GetValue(now) && call.pattern == GetPattern() && call.charset == charset
    {
      var used := shared.Select(UsesOwnCulture(culture, appCulture), culture, appCulture);
      call := FormatCall(used, GetValue(now), GetPattern(), charset);
    }
  }
}

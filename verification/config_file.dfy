/**
 Read-only access to the monitor's INI configuration (`ConfigClass`).

 The parsed file is a map from section name to a map from option name to its
 raw text. The INI parser stores option names lower-cased and looks them up
 lower-cased, so a lookup folds the key; section names are matched exactly.
 Every lookup returns the caller's default instead of raising.
 */
module ConfigFile {
  import opened Common
  import opened Text

  type Config = map<string, map<string, string>>

  /** `config[section][key]`, `None` where that raises. */
  function Lookup(cfg: Config, section: string, key: string): (r: Option<string>)
    ensures r.Some? <==> section in cfg && Lower(key) in cfg[section]
    ensures r.Some? ==> r.value == cfg[section][Lower(key)]
  {
    if section in cfg && Lower(key) in cfg[section] then Some(cfg[section][Lower(key)]) else None
  }

  /** `s.replace('"', '').strip()`. */
  function Clean(s: string): (r: string)
    ensures '"' !in r
    ensures |r| > 0 ==> !IsSpace(r[0]) && !IsSpace(r[|r| - 1])
    ensures Trimmed(Remove(s, '"'), r)
  {
    var t := Remove(s, '"');
    StripOfQuoteless(t);
    Strip(t)
  }

  /** Stripping text without quotes leaves text without quotes. */
  lemma StripOfQuoteless(t: string)
    requires '"' !in t
    ensures '"' !in Strip(t) && Trimmed(t, Strip(t))
  {
    var i, j := StripWitness(t);
    TrimmedIntro(t, Strip(t), i, j);
    SliceLacks(t, i, j, '"');
  }

  lemma SliceLacks(t: string, i: int, j: int, c: char)
    requires c !in t && 0 <= i <= j <= |t|
    ensures c !in t[i..j]
  {
    assert forall k :: 0 <= k < j - i ==> t[i..j][k] == t[i + k];
  }

  /** A value that has no quotes and no surrounding whitespace is already clean. */
  lemma CleanOfClean(s: string)
    requires '"' !in s
    requires |s| > 0 ==> !IsSpace(s[0]) && !IsSpace(s[|s| - 1])
    ensures Clean(s) == s
  {
    StripOfStripped(s);
  }

  /** Cleaning is idempotent. */
  lemma CleanIdempotent(s: string)
    ensures Clean(Clean(s)) == Clean(s)
  {
    CleanOfClean(Clean(s));
  }

  /** `getValue`: the cleaned value, or the default when the section or the
      key is missing. */
  function GetValue(cfg: Config, section: string, key: string, default: string): (r: string)
    ensures Lookup(cfg, section, key).None? ==> r == default
    ensures Lookup(cfg, section, key).Some? ==> r == Clean(Lookup(cfg, section, key).value)
    ensures Lookup(cfg, section, key).Some? ==> Trimmed(Remove(Lookup(cfg, section, key).value, '"'), r)
  {
    match Lookup(cfg, section, key)
    case None => default
    case Some(raw) => Clean(raw)
  }

  /** `getValueAsList`: the value split at every comma, each piece cleaned,
      or the default list when the section or the key is missing. */
  function GetValueAsList(cfg: Config, section: string, key: string, default: seq<string>): (r: seq<string>)
    ensures Lookup(cfg, section, key).None? ==> r == default
    ensures Lookup(cfg, section, key).Some? ==>
              var parts := Split(Lookup(cfg, section, key).value, ',');
              |r| == |parts| && forall i :: 0 <= i < |r| ==> r[i] == Clean(parts[i])
  {
    match Lookup(cfg, section, key)
    case None => default
    case Some(raw) =>
      var parts := Split(raw, ',');
      seq(|parts|, i requires 0 <= i < |parts| => Clean(parts[i]))
  }

  // ---------------------------------------------------------------------------
  // Properties
  // ---------------------------------------------------------------------------

  /** A stored value without quotes or surrounding blanks comes back as is. */
  lemma CleanValueRoundTrip(cfg: Config, section: string, key: string, v: string, default: string)
    requires '"' !in v && (|v| > 0 ==> !IsSpace(v[0]) && !IsSpace(v[|v| - 1]))
    requires section in cfg
    ensures GetValue(cfg[section := cfg[section][Lower(key) := v]], section, key, default) == v
  {
    var updated := cfg[section := cfg[section][Lower(key) := v]];
    assert Lookup(updated, section, key) == Some(v);
    CleanOfClean(v);
  }

  /** A value written in quotes, with blanks around it, reads back without
      the quotes and the blanks: what the cleaning is for. */
  lemma QuotedValueReadsBack(cfg: Config, section: string, key: string, v: string,
                             before: string, after: string, default: string)
    requires '"' !in v && (|v| > 0 ==> !IsSpace(v[0]) && !IsSpace(v[|v| - 1]))
    requires AllSpace(before) && AllSpace(after)
    requires section in cfg
    ensures var raw := before + "\"" + v + "\"" + after;
            GetValue(cfg[section := cfg[section][Lower(key) := raw]], section, key, default) == v
  {
    var raw := before + "\"" + v + "\"" + after;
    var updated := cfg[section := cfg[section][Lower(key) := raw]];
    assert Lookup(updated, section, key) == Some(raw);
    assert '"' !in before && '"' !in after by {
      assert !IsSpace('"');
    }
    RemoveQuotes(before, v, after);
    StripPadded(before, v, after);
  }

  lemma RemoveQuotes(before: string, v: string, after: string)
    requires '"' !in before && '"' !in v && '"' !in after
    ensures Remove(before + "\"" + v + "\"" + after, '"') == before + v + after
  {
    var q := "\"";
    var a := before + q;
    var b := a + v;
    var c := b + q;
    assert Remove(q, '"') == "";
    RemoveAppend(before, q, '"');
    assert Remove(a, '"') == before;
    RemoveAppend(a, v, '"');
    assert Remove(b, '"') == before + v;
    RemoveAppend(b, q, '"');
    assert Remove(c, '"') == before + v;
    RemoveAppend(c, after, '"');
  }

  lemma StripPadded(before: string, v: string, after: string)
    requires |v| > 0 ==> !IsSpace(v[0]) && !IsSpace(v[|v| - 1])
    requires AllSpace(before) && AllSpace(after)
    ensures Strip(before + v + after) == v
  {
    var t := before + v + after;
    assert t[|before|..|before| + |v|] == v;
    forall k | |before| + |v| <= k < |t| ensures IsSpace(t[k]) {
      assert t[k] == after[k - |before| - |v|];
    }
    assert StripsTo(t, |before|, |before| + |v|);
    StripUnique(t, |before|, |before| + |v|);
  }

  /** A list value has one item more than it has commas. */
  lemma ListLengthIsCommasPlusOne(cfg: Config, section: string, key: string, default: seq<string>)
    requires Lookup(cfg, section, key).Some?
    ensures |GetValueAsList(cfg, section, key, default)| == Count(Lookup(cfg, section, key).value, ',') + 1
  {
    SplitCount(Lookup(cfg, section, key).value, ',');
  }

  /** Writing clean, comma-free items joined by commas reads them back. */
  lemma ListRoundTrip(cfg: Config, section: string, key: string, items: seq<string>, default: seq<string>)
    requires |items| >= 1
    requires forall i :: 0 <= i < |items| ==> ',' !in items[i] && '"' !in items[i]
    requires forall i :: 0 <= i < |items| ==>
               |items[i]| > 0 ==> !IsSpace(items[i][0]) && !IsSpace(items[i][|items[i]| - 1])
    requires section in cfg
    ensures GetValueAsList(cfg[section := cfg[section][Lower(key) := Join(items, ',')]],
                           section, key, default) == items
  {
    var cfg2 := cfg[section := cfg[section][Lower(key) := Join(items, ',')]];
    assert Lookup(cfg2, section, key) == Some(Join(items, ','));
    SplitJoin(items, ',');
    CleanAllOfClean(items);
  }

  lemma CleanAllOfClean(items: seq<string>)
    requires forall i :: 0 <= i < |items| ==> '"' !in items[i]
    requires forall i :: 0 <= i < |items| ==>
               |items[i]| > 0 ==> !IsSpace(items[i][0]) && !IsSpace(items[i][|items[i]| - 1])
    ensures seq(|items|, i requires 0 <= i < |items| => Clean(items[i])) == items
  {
    forall i | 0 <= i < |items| ensures Clean(items[i]) == items[i] {
      CleanOfClean(items[i]);
    }
  }

  /** A list item is what `getValue` would make of that piece on its own. */
  lemma ListItemsAreValues(cfg: Config, section: string, key: string, default: seq<string>, i: nat)
    requires Lookup(cfg, section, key).Some?
    requires i < |GetValueAsList(cfg, section, key, default)|
    ensures var piece := Split(Lookup(cfg, section, key).value, ',')[i];
            GetValueAsList(cfg, section, key, default)[i] ==
              GetValue(map[section := map[Lower(key) := piece]], section, key, "")
  {
  }
}

/**
 Drive temperature from the text printed by `smartctl -A`: `driveTemp`
 (systemsupport.py and oneUpSupport.py) and `getNVMETemp` (monitor1up.py).

 Three label prefixes are tried in order. For each prefix only the FIRST line
 that starts with it is looked at; if that line has too few fields the search
 moves on to the next prefix. The copies differ in which field a numeric
 attribute line yields. Converting the chosen field with `float()` is not
 modelled: the conversion is a parameter, `None` standing for `ValueError`.
 */
module SmartTemp {
  import opened Common
  import opened Text

  const PREFIXES: seq<string> := ["Temperature:", "194", "190"]

  /** Which field a "194"/"190" attribute line yields. */
  datatype Flavour =
    | RawValueField  // systemsupport.py: parts[9], the raw value column
    | IdField        // oneUpSupport.py and monitor1up.py: parts[0]

  function FieldIndex(prefix: string, flavour: Flavour): nat {
    if prefix == "Temperature:" then 1
    else if flavour == RawValueField then 9
    else 0
  }

  /** `[l for l in smartOutRaw.split('\n') if l]`. */
  function Lines(text: string): seq<string> {
    NonEmpty(Split(text, '\n'))
  }

  /** `[p for p in line.replace('\t', ' ').split(' ') if p]`. */
  function Fields(line: string): seq<string> {
    NonEmpty(Split(Replace(line, '\t', ' '), ' '))
  }

  /** The first line that starts with `prefix`. */
  function FirstWithPrefix(lines: seq<string>, prefix: string): (r: Option<string>)
    ensures r.Some? ==> r.value in lines && StartsWith(r.value, prefix)
    ensures r.None? ==> forall l :: l in lines ==> !StartsWith(l, prefix)
    ensures r.Some? ==> exists i :: 0 <= i < |lines| && lines[i] == r.value &&
                                    forall j :: 0 <= j < i ==> !StartsWith(lines[j], prefix)
  {
    if |lines| == 0 then None
    else if StartsWith(lines[0], prefix) then Some(lines[0])
    else
      var r := FirstWithPrefix(lines[1..], prefix);
      FirstWithPrefixStep(lines, prefix, r);
      r
  }

  /** A head line without the prefix: the first match of the tail is the
      first match of all lines. */
  lemma FirstWithPrefixStep(lines: seq<string>, prefix: string, r: Option<string>)
    requires |lines| > 0 && !StartsWith(lines[0], prefix)
    requires r.Some? ==> exists i :: 0 <= i < |lines[1..]| && lines[1..][i] == r.value &&
                                     forall j :: 0 <= j < i ==> !StartsWith(lines[1..][j], prefix)
    ensures r.Some? ==> exists i :: 0 <= i < |lines| && lines[i] == r.value &&
                                    forall j :: 0 <= j < i ==> !StartsWith(lines[j], prefix)
  {
    if r.Some? {
      var i: int :| 0 <= i < |lines[1..]| && lines[1..][i] == r.value &&
                    forall j :: 0 <= j < i ==> !StartsWith(lines[1..][j], prefix);
      assert forall j :: 1 <= j <= i ==> lines[j] == lines[1..][j - 1];
      assert lines[i + 1] == r.value;
    }
  }

  /** A prefix succeeds when its first matching line has the wanted field. */
  predicate Eligible(lines: seq<string>, prefix: string, flavour: Flavour) {
    var l := FirstWithPrefix(lines, prefix);
    l.Some? && |Fields(l.value)| > FieldIndex(prefix, flavour)
  }

  /** The text of the wanted field of an eligible prefix. */
  function FieldOf(lines: seq<string>, prefix: string, flavour: Flavour): string
    requires Eligible(lines, prefix, flavour)
  {
    Fields(FirstWithPrefix(lines, prefix).value)[FieldIndex(prefix, flavour)]
  }

  /** The loop over the prefixes: the field of the first eligible prefix. */
  function SelectField(lines: seq<string>, prefixes: seq<string>, flavour: Flavour): Option<string> {
    if |prefixes| == 0 then None
    else if Eligible(lines, prefixes[0], flavour) then Some(FieldOf(lines, prefixes[0], flavour))
    else SelectField(lines, prefixes[1..], flavour)
  }

  /** The position of the first eligible prefix, `|prefixes|` when there is none. */
  function Winner(lines: seq<string>, prefixes: seq<string>, flavour: Flavour): (j: nat)
    ensures j <= |prefixes|
    ensures forall i :: 0 <= i < j ==> !Eligible(lines, prefixes[i], flavour)
    ensures j < |prefixes| ==> Eligible(lines, prefixes[j], flavour)
  {
    if |prefixes| == 0 then 0
    else if Eligible(lines, prefixes[0], flavour) then 0
    else
      var j := Winner(lines, prefixes[1..], flavour);
      WinnerStep(lines, prefixes, flavour, j);
      1 + j
  }

  /** An ineligible head prefix: the winner of the tail, one place on, is
      the winner of the whole list. */
  lemma WinnerStep(lines: seq<string>, prefixes: seq<string>, flavour: Flavour, j: nat)
    requires |prefixes| > 0 && !Eligible(lines, prefixes[0], flavour)
    requires j <= |prefixes[1..]|
    requires forall i :: 0 <= i < j ==> !Eligible(lines, prefixes[1..][i], flavour)
    requires j < |prefixes[1..]| ==> Eligible(lines, prefixes[1..][j], flavour)
    ensures 1 + j <= |prefixes|
    ensures forall i :: 0 <= i < 1 + j ==> !Eligible(lines, prefixes[i], flavour)
    ensures 1 + j < |prefixes| ==> Eligible(lines, prefixes[1 + j], flavour)
  {
    assert forall i :: 1 <= i <= j ==> prefixes[i] == prefixes[1..][i - 1];
  }

  /** The first prefix, in list order, whose first matching line has enough
      fields decides the answer; when there is none the answer is `None`. */
  lemma {:induction false} FirstEligiblePrefixWins(lines: seq<string>, prefixes: seq<string>, flavour: Flavour)
    ensures var j := Winner(lines, prefixes, flavour);
            SelectField(lines, prefixes, flavour) ==
              if j < |prefixes| then Some(FieldOf(lines, prefixes[j], flavour)) else None
  {
    if |prefixes| > 0 && !Eligible(lines, prefixes[0], flavour) {
      FirstEligiblePrefixWins(lines, prefixes[1..], flavour);
    }
  }

  /** `driveTemp` / `getNVMETemp`. A failed read returns 0.0 from the handler;
      a failed launch leaves `command` unbound, so closing it in `finally`
      raises UnboundLocalError in every copy. */
  function DriveTemp(out: Command, flavour: Flavour, parseFloat: string -> Option<real>): (r: Result<real, PyError>)
    ensures out.ReadFailed? ==> r == Ok(0.0)
    ensures out.LaunchFailed? ==> r == Err(UnboundLocalError)
    ensures out.Output? && Winner(Lines(out.text), PREFIXES, flavour) == |PREFIXES| ==> r == Ok(0.0)
    ensures out.Output? && Winner(Lines(out.text), PREFIXES, flavour) < |PREFIXES| ==>
              var lines := Lines(out.text);
              var field := FieldOf(lines, PREFIXES[Winner(lines, PREFIXES, flavour)], flavour);
              r == (if parseFloat(field).Some? then Ok(parseFloat(field).value) else Err(ValueError))
    ensures out.Output? && r.Err? ==> r.error == ValueError
  {
    match out
    case LaunchFailed => Err(UnboundLocalError)
    case ReadFailed => Ok(0.0)
    case Output(text) =>
      FirstEligiblePrefixWins(Lines(text), PREFIXES, flavour);
      match SelectField(Lines(text), PREFIXES, flavour)
      case None => Ok(0.0)
      case Some(field) =>
        match parseFloat(field)
        case Some(v) => Ok(v)
        case None => Err(ValueError)
  }

  // ---------------------------------------------------------------------------
  // The numeric attribute lines in the parts[0] copies
  // ---------------------------------------------------------------------------

  lemma {:induction false} SplitHeadKeepsPrefix(s: string, p: string, c: char)
    requires StartsWith(s, p) && c !in p
    ensures StartsWith(Split(s, c)[0], p)
  {
    var i := IndexOf(s, c);
    if i < |s| {
      assert forall k :: 0 <= k < |p| ==> s[k] == p[k] && s[k] != c;
      assert Split(s, c)[0] == s[..i];
    }
  }

  lemma ReplaceKeepsPrefix(s: string, p: string, a: char, b: char)
    requires StartsWith(s, p) && a !in p
    ensures StartsWith(Replace(s, a, b), p)
  {
    var r := Replace(s, a, b);
    forall i | 0 <= i < |p| ensures r[i] == p[i] {
      assert s[i] == p[i];
    }
  }

  /** For a line starting with `p` (no space or tab in `p`), the first field
      starts with `p` itself. */
  lemma FirstFieldStartsWithPrefix(line: string, p: string)
    requires |p| > 0 && StartsWith(line, p) && ' ' !in p && '\t' !in p
    ensures |Fields(line)| > 0 && StartsWith(Fields(line)[0], p)
  {
    var t := Replace(line, '\t', ' ');
    ReplaceKeepsPrefix(line, p, '\t', ' ');
    SplitHeadKeepsPrefix(t, p, ' ');
    var parts := Split(t, ' ');
    assert |parts[0]| > 0;
    assert parts == [parts[0]] + parts[1..];
  }

  /** In the parts[0] copies a "194" or "190" line yields its own attribute
      number, not a temperature reading. */
  lemma IdFieldReturnsAttributeNumber(lines: seq<string>)
    requires Winner(lines, PREFIXES, IdField) in {1, 2}
    ensures var f := SelectField(lines, PREFIXES, IdField);
            f.Some? && StartsWith(f.value, PREFIXES[Winner(lines, PREFIXES, IdField)])
  {
    var j := Winner(lines, PREFIXES, IdField);
    FirstEligiblePrefixWins(lines, PREFIXES, IdField);
    assert PREFIXES[j] == "194" || PREFIXES[j] == "190";
    AttributeFieldKeepsPrefix(lines, PREFIXES[j]);
  }

  /** The field a numeric attribute line yields in the parts[0] copies
      starts with the attribute number. */
  lemma AttributeFieldKeepsPrefix(lines: seq<string>, p: string)
    requires p == "194" || p == "190"
    requires Eligible(lines, p, IdField)
    ensures StartsWith(FieldOf(lines, p, IdField), p)
  {
    assert FieldIndex(p, IdField) == 0;
    assert ' ' !in p && '\t' !in p;
    FirstFieldStartsWithPrefix(FirstWithPrefix(lines, p).value, p);
  }
}

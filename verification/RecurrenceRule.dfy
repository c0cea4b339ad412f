/** The three validators of recurrence rules (section 3.3.10 of RFC 5545): the control service's,
    and one on each celery side, which also return the rule as a dictionary. */
module RecurrenceRule {
  import opened Wrappers

  /** The library calls on values: `upper`, `int`, and `strptime` with the UNTIL format. */
  datatype Library = Library(upper: string -> string, integer: string -> Option<int>, isStamp: string -> bool)

  const FREQUENCIES := {"SECONDLY", "MINUTELY", "HOURLY", "DAILY", "WEEKLY", "MONTHLY", "YEARLY"}

  const KEYS := {
    "FREQ", "UNTIL", "COUNT", "INTERVAL", "BYSECOND", "BYMINUTE", "BYHOUR", "BYDAY", "BYMONTHDAY", "BYYEARDAY",
    "BYWEEKNO", "BYMONTH", "BYSETPOS", "WKST"}

  // ---------------------------------------------------------------- splitting and joining

  function Split(s: string, c: char): (parts: seq<string>)
    ensures |parts| >= 1
    decreases |s|
  {
    if s == "" then [""]
    else
      var rest := Split(s[1..], c);
      if s[0] == c then [""] + rest else [[s[0]] + rest[0]] + rest[1..]
  }

  function Join(parts: seq<string>, c: char): string
    requires |parts| >= 1
    decreases |parts|
  {
    if |parts| == 1 then parts[0] else parts[0] + [c] + Join(parts[1..], c)
  }

  lemma {:induction false} SplitHead(p: string, c: char, rest: string)
    requires c !in p
    ensures Split(p, c) == [p]
    ensures Split(p + [c] + rest, c) == [p] + Split(rest, c)
    decreases |p|
  {
    var s := p + [c] + rest;
    if p == "" {
      assert s[0] == c && s[1..] == rest;
    } else {
      assert s[1..] == p[1..] + [c] + rest && s[0] == p[0];
      assert p[0] in p && forall x :: x in p[1..] ==> x in p;
      SplitHead(p[1..], c, rest);
      assert [p[0]] + p[1..] == p;
    }
  }

  lemma {:induction false} SplitJoin(parts: seq<string>, c: char)
    requires |parts| >= 1 && forall p :: p in parts ==> c !in p
    ensures Split(Join(parts, c), c) == parts
    decreases |parts|
  {
    assert parts[0] in parts;
    if |parts| == 1 {
      SplitHead(parts[0], c, "");
    } else {
      assert forall p :: p in parts[1..] ==> p in parts;
      SplitJoin(parts[1..], c);
      SplitHead(parts[0], c, Join(parts[1..], c));
    }
  }

  lemma {:induction false} SplitParts(s: string, c: char)
    ensures forall p :: p in Split(s, c) ==> c !in p
    ensures Join(Split(s, c), c) == s
    decreases |s|
  {
    if s != "" {
      var rest := Split(s[1..], c);
      SplitParts(s[1..], c);
      assert rest[0] in rest && forall p :: p in rest[1..] ==> p in rest;
      if s[0] != c {
        var parts := [[s[0]] + rest[0]] + rest[1..];
        assert parts[1..] == rest[1..];
        assert rest == [rest[0]] + rest[1..];
        assert Join(parts, c) == [s[0]] + Join(rest, c);
      } else {
        assert ([""] + rest)[1..] == rest;
      }
    }
  }

  // ---------------------------------------------------------------- reading a rule

  /** The key and the value of a component, cut at its first `=`. */
  function Cut(component: string): Option<(string, string)>
    decreases |component|
  {
    if component == "" then None
    else if component[0] == '=' then Some(("", component[1..]))
    else
      match Cut(component[1..])
      case None => None
      case Some((key, value)) => Some(([component[0]] + key, value))
  }

  lemma {:induction false} CutAtFirst(key: string, value: string)
    requires '=' !in key
    ensures Cut(key + "=" + value) == Some((key, value))
    decreases |key|
  {
    var s := key + "=" + value;
    if key == "" {
      assert s[1..] == value;
    } else {
      assert s[1..] == key[1..] + "=" + value && s[0] == key[0];
      assert key[0] in key && forall x :: x in key[1..] ==> x in key;
      CutAtFirst(key[1..], value);
      assert [key[0]] + key[1..] == key;
    }
  }

  lemma {:induction false} CutMeaning(component: string)
    ensures Cut(component).Some? <==> '=' in component
    ensures Cut(component).Some? ==>
      component == Cut(component).value.0 + "=" + Cut(component).value.1 && '=' !in Cut(component).value.0
    decreases |component|
  {
    if component != "" && component[0] != '=' {
      assert component == [component[0]] + component[1..];
      CutMeaning(component[1..]);
    }
  }

  function LowerChar(c: char): char {
    if 'A' <= c <= 'Z' then ((c as int) + 32) as char else c
  }

  function Lower(s: string): (r: string)
    ensures |r| == |s|
  {
    seq(|s|, i requires 0 <= i < |s| => LowerChar(s[i]))
  }

  /** The celery sides store their keys in lower case. */
  function Name(key: string, lower: bool): string {
    if lower then Lower(key) else key
  }

  /** The names of the parts on the celery sides. */
  lemma LowerNames()
    ensures Lower("FREQ") == "freq" && Lower("UNTIL") == "until" && Lower("COUNT") == "count"
    ensures Lower("INTERVAL") == "interval" && Lower("WKST") == "wkst" && Lower("BYSETPOS") == "bysetpos"
    ensures Lower("BYSECOND") == "bysecond" && Lower("BYMINUTE") == "byminute" && Lower("BYHOUR") == "byhour"
    ensures Lower("BYDAY") == "byday" && Lower("BYMONTHDAY") == "bymonthday" && Lower("BYYEARDAY") == "byyearday"
    ensures Lower("BYWEEKNO") == "byweekno" && Lower("BYMONTH") == "bymonth"
  {}

  ghost predicate UpperLetters(s: string) {
    forall i :: 0 <= i < |s| ==> 'A' <= s[i] <= 'Z'
  }

  lemma KeysAreUpper(key: string)
    requires key in KEYS
    ensures UpperLetters(key) && '=' !in key && ';' !in key && key != ""
  {}

  lemma NamesDiffer(a: string, b: string, lower: bool)
    requires a in KEYS && b in KEYS && Name(a, lower) == Name(b, lower)
    ensures a == b
  {
    KeysAreUpper(a);
    KeysAreUpper(b);
    if lower {
      assert |a| == |b|;
      forall i | 0 <= i < |a| ensures a[i] == b[i] {
        assert Lower(a)[i] == Lower(b)[i];
      }
    }
  }

  /** The dictionary filled component by component; nothing if some component is refused. */
  function Read(components: seq<string>, lower: bool): Option<map<string, string>>
    decreases |components|
  {
    if components == [] then Some(map[])
    else
      var n := |components| - 1;
      match Cut(components[n])
      case None => None
      case Some((key, value)) =>
        if key !in KEYS || Read(components[..n], lower) == None then None
        else Some(Read(components[..n], lower).value[Name(key, lower) := value])
  }

  /** The checks on a filled dictionary. The control side takes the frequency as it is written,
      the celery sides in upper case. */
  predicate Sound(lib: Library, d: map<string, string>, lower: bool) {
    && Name("FREQ", lower) in d
    && (if lower then lib.upper(d[Name("FREQ", lower)]) else d[Name("FREQ", lower)]) in FREQUENCIES
    && (Name("INTERVAL", lower) in d ==>
      lib.integer(d[Name("INTERVAL", lower)]).Some? && lib.integer(d[Name("INTERVAL", lower)]).value > 0)
    && (Name("UNTIL", lower) in d ==> lib.isStamp(d[Name("UNTIL", lower)]))
  }

  /** The dictionary of an accepted rule. */
  function Accepted(lib: Library, rule: string, lower: bool): Option<map<string, string>> {
    var components := Split(rule, ';');
    var d := Read(components, lower);
    if components[|components| - 1] != "" && d.Some? && Sound(lib, d.value, lower) then d else None
  }

  lemma {:induction false} ReadStops(components: seq<string>, n: nat, lower: bool)
    requires n <= |components| && Read(components[..n], lower) == None
    ensures Read(components, lower) == None
    decreases |components|
  {
    if n < |components| {
      assert components[..|components| - 1][..n] == components[..n];
      ReadStops(components[..|components| - 1], n, lower);
    } else {
      assert components[..n] == components;
    }
  }

  method FillDictionary(components: seq<string>, lower: bool) returns (r: Option<map<string, string>>)
    ensures r == Read(components, lower)
  {
    var d: map<string, string> := map[];
    for k := 0 to |components|
      invariant Read(components[..k], lower) == Some(d)
    {
      assert components[..k + 1][..k] == components[..k];
      var cut := Cut(components[k]);
      if cut == None || cut.value.0 !in KEYS {
        ReadStops(components, k + 1, lower);
        return None;
      }
      d := d[Name(cut.value.0, lower) := cut.value.1];
    }
    assert components[..|components|] == components;
    r := Some(d);
  }

  /** validate_rrule of both celery sides. */
  method ValidateCelery(lib: Library, rule: string) returns (ok: bool, d: map<string, string>)
    ensures ok <==> Accepted(lib, rule, true).Some?
    ensures d == if ok then Accepted(lib, rule, true).value else map[]
  {
    var components := Split(rule, ';');
    if |components| < 1 || components[|components| - 1] == "" {
      return false, map[];
    }
    var read := FillDictionary(components, true);
    if read == None || "freq" !in read.value {
      assert Lower("FREQ") == "freq";
      return false, map[];
    }
    assert Lower("FREQ") == "freq" && Lower("INTERVAL") == "interval" && Lower("UNTIL") == "until";
    d := read.value;
    if lib.upper(d["freq"]) !in FREQUENCIES {
      return false, map[];
    }
    if "interval" in d {
      var interval := lib.integer(d["interval"]);
      if interval == None || interval.value <= 0 {
        return false, map[];
      }
    }
    if "until" in d && !lib.isStamp(d["until"]) {
      return false, map[];
    }
    ok := true;
  }

  /** validate_rrule of the control service. */
  method ValidateControl(lib: Library, rule: string) returns (ok: bool)
    ensures ok <==> Accepted(lib, rule, false).Some?
  {
    var components := Split(rule, ';');
    if |components| < 1 || components[|components| - 1] == "" {
      return false;
    }
    var read := FillDictionary(components, false);
    if read == None || "FREQ" !in read.value || read.value["FREQ"] !in FREQUENCIES {
      return false;
    }
    if "INTERVAL" in read.value {
      var interval := lib.integer(read.value["INTERVAL"]);
      if interval == None || interval.value <= 0 {
        return false;
      }
    }
    ok := "UNTIL" !in read.value || lib.isStamp(read.value["UNTIL"]);
  }

  // ---------------------------------------------------------------- what the dictionary says

  /** The value of the last component with the given key. */
  function LastValue(components: seq<string>, key: string): Option<string>
    decreases |components|
  {
    if components == [] then None
    else
      var n := |components| - 1;
      match Cut(components[n])
      case Some((k, value)) => if k == key then Some(value) else LastValue(components[..n], key)
      case None => LastValue(components[..n], key)
  }

  predicate Readable(component: string) {
    Cut(component).Some? && Cut(component).value.0 in KEYS
  }

  /** A rule can be read exactly if every component has an `=` and a known key before it. */
  lemma {:induction false} ReadExactly(components: seq<string>, lower: bool)
    ensures Read(components, lower).Some? <==> forall c :: c in components ==> Readable(c)
    decreases |components|
  {
    if components != [] {
      var n := |components| - 1;
      ReadExactly(components[..n], lower);
      assert components == components[..n] + [components[n]];
      assert Read(components, lower).Some? <==> Read(components[..n], lower).Some? && Readable(components[n]);
    }
  }

  predicate IsFrequency(s: string) {
    s == "SECONDLY" || s == "MINUTELY" || s == "HOURLY" || s == "DAILY" || s == "WEEKLY" || s == "MONTHLY"
    || s == "YEARLY"
  }

  predicate IsRulePart(s: string) {
    || s == "FREQ" || s == "UNTIL" || s == "COUNT" || s == "INTERVAL" || s == "BYSECOND" || s == "BYMINUTE"
    || s == "BYHOUR" || s == "BYDAY" || s == "BYMONTHDAY" || s == "BYYEARDAY" || s == "BYWEEKNO" || s == "BYMONTH"
    || s == "BYSETPOS" || s == "WKST"
  }

  /** A known key, then the first `=` of the component. */
  ghost predicate IsPart(component: string) {
    exists key, value :: component == key + "=" + value && IsRulePart(key)
  }

  /** What a validator demands of the components: the last is not empty, each is a known part with
      an `=`, there is a frequency, and a given interval is positive and a given end a date.
      The celery sides take the frequency in any case. */
  ghost predicate Valid(lib: Library, components: seq<string>, anyCase: bool)
    requires components != []
  {
    var freq, interval, until :=
      LastValue(components, "FREQ"), LastValue(components, "INTERVAL"), LastValue(components, "UNTIL");
    && components[|components| - 1] != ""
    && (forall c :: c in components ==> IsPart(c))
    && freq.Some? && IsFrequency(if anyCase then lib.upper(freq.value) else freq.value)
    && (interval.Some? ==> lib.integer(interval.value).Some? && 0 < lib.integer(interval.value).value)
    && (until.Some? ==> lib.isStamp(until.value))
  }

  lemma ReadableExactly(component: string)
    ensures Readable(component) <==> IsPart(component)
  {
    CutMeaning(component);
    if key, value :| component == key + "=" + value && IsRulePart(key) {
      CutAtFirst(key, value);
    }
    if Readable(component) {
      var cut := Cut(component).value;
      assert component == cut.0 + "=" + cut.1 && IsRulePart(cut.0);
    }
  }

  /** A rule is accepted exactly if its components are valid. */
  lemma AcceptedExactly(lib: Library, rule: string, lower: bool)
    ensures Accepted(lib, rule, lower).Some? <==> Valid(lib, Split(rule, ';'), lower)
  {
    var components := Split(rule, ';');
    ReadExactly(components, lower);
    forall c | c in components ensures Readable(c) <==> IsPart(c) {
      ReadableExactly(c);
    }
    if Read(components, lower).Some? {
      LastDuplicateWins(components, lower, "FREQ");
      LastDuplicateWins(components, lower, "INTERVAL");
      LastDuplicateWins(components, lower, "UNTIL");
    }
  }

  /** The dictionary has the keys of the components, and the last duplicate wins. */
  lemma {:induction false} LastDuplicateWins(components: seq<string>, lower: bool, key: string)
    requires key in KEYS && Read(components, lower).Some?
    ensures Name(key, lower) in Read(components, lower).value <==> LastValue(components, key).Some?
    ensures LastValue(components, key).Some? ==>
      Read(components, lower).value[Name(key, lower)] == LastValue(components, key).value
    decreases |components|
  {
    if components != [] {
      var n := |components| - 1;
      LastDuplicateWins(components[..n], lower, key);
      var last := Cut(components[n]).value.0;
      if Name(key, lower) == Name(last, lower) {
        NamesDiffer(key, last, lower);
      }
    }
  }

  lemma {:induction false} NamesAreKeys(components: seq<string>, lower: bool, name: string)
    requires Read(components, lower).Some? && name in Read(components, lower).value
    ensures exists key :: key in KEYS && Name(key, lower) == name
    decreases |components|
  {
    var n := |components| - 1;
    var last := Cut(components[n]).value.0;
    if name != Name(last, lower) {
      NamesAreKeys(components[..n], lower, name);
    }
  }

  // ---------------------------------------------------------------- round trip

  function Component(key: string, value: string): string {
    key + "=" + value
  }

  /** The entries of a dictionary, in the order of `keys`, as KEY=value components. */
  function Printed(d: map<string, string>, keys: seq<string>, lower: bool): (components: seq<string>)
    requires forall key :: key in keys ==> Name(key, lower) in d
    ensures |components| == |keys|
  {
    seq(|keys|, i requires 0 <= i < |keys| => Component(keys[i], d[Name(keys[i], lower)]))
  }

  /** `keys` lists the keys of the dictionary, each once, in some order. */
  ghost predicate Lists(keys: seq<string>, d: map<string, string>, lower: bool) {
    && (forall key :: key in keys ==> key in KEYS && Name(key, lower) in d)
    && (forall i, k :: 0 <= i < k < |keys| ==> keys[i] != keys[k])
    && (forall name :: name in d ==> exists key :: key in keys && Name(key, lower) == name)
  }

  /** The entries of `d` under `keys`. */
  function Picked(d: map<string, string>, keys: seq<string>, lower: bool): map<string, string>
    requires forall key :: key in keys ==> Name(key, lower) in d
    decreases |keys|
  {
    if keys == [] then map[]
    else
      var n := |keys| - 1;
      Picked(d, keys[..n], lower)[Name(keys[n], lower) := d[Name(keys[n], lower)]]
  }

  lemma {:induction false} PickedAre(d: map<string, string>, keys: seq<string>, lower: bool)
    requires forall key :: key in keys ==> Name(key, lower) in d
    ensures forall key :: key in keys ==> Name(key, lower) in Picked(d, keys, lower)
    ensures forall name :: name in Picked(d, keys, lower) ==> name in d && Picked(d, keys, lower)[name] == d[name]
    decreases |keys|
  {
    if keys != [] {
      var n := |keys| - 1;
      assert keys == keys[..n] + [keys[n]];
      PickedAre(d, keys[..n], lower);
    }
  }

  lemma {:induction false} ReadPrinted(d: map<string, string>, keys: seq<string>, lower: bool)
    requires forall key :: key in keys ==> key in KEYS && Name(key, lower) in d
    ensures Read(Printed(d, keys, lower), lower) == Some(Picked(d, keys, lower))
    decreases |keys|
  {
    if keys != [] {
      var n := |keys| - 1;
      var components := Printed(d, keys, lower);
      assert components[..n] == Printed(d, keys[..n], lower);
      ReadPrinted(d, keys[..n], lower);
      KeysAreUpper(keys[n]);
      CutAtFirst(keys[n], d[Name(keys[n], lower)]);
    }
  }

  /** Values of an accepted rule hold no separator, so they survive printing. */
  lemma {:induction false} ValuesAreWhole(components: seq<string>, lower: bool)
    requires forall c :: c in components ==> ';' !in c
    requires Read(components, lower).Some?
    ensures forall name :: name in Read(components, lower).value ==> ';' !in Read(components, lower).value[name]
    decreases |components|
  {
    if components != [] {
      var n := |components| - 1;
      assert components[n] in components && forall c :: c in components[..n] ==> c in components;
      ValuesAreWhole(components[..n], lower);
      CutMeaning(components[n]);
      var value := Cut(components[n]).value.1;
      assert forall x :: x in value ==> x in components[n];
    }
  }

  /** Printing the dictionary of an accepted rule and validating it again gives the same
      dictionary, in whatever order the entries are printed. */
  lemma RoundTrip(lib: Library, rule: string, lower: bool, keys: seq<string>)
    requires Accepted(lib, rule, lower).Some?
    requires Lists(keys, Accepted(lib, rule, lower).value, lower)
    ensures keys != []
    ensures var d := Accepted(lib, rule, lower).value;
      Accepted(lib, Join(Printed(d, keys, lower), ';'), lower) == Some(d)
  {
    var d := Accepted(lib, rule, lower).value;
    SplitParts(rule, ';');
    ValuesAreWhole(Split(rule, ';'), lower);
    var first :| first in keys && Name(first, lower) == Name("FREQ", lower);
    WholeComponents(d, keys, lower);
    var components := Printed(d, keys, lower);
    SplitJoin(components, ';');
    ReadPrinted(d, keys, lower);
    PickedAll(d, keys, lower);
    assert components[|components| - 1] != "";
    assert Accepted(lib, Join(components, ';'), lower) == Some(d);
  }

  lemma PickedAll(d: map<string, string>, keys: seq<string>, lower: bool)
    requires Lists(keys, d, lower)
    ensures Picked(d, keys, lower) == d
  {
    PickedAre(d, keys, lower);
    forall name | name in d ensures name in Picked(d, keys, lower) {
      var key :| key in keys && Name(key, lower) == name;
    }
  }

  lemma WholeComponents(d: map<string, string>, keys: seq<string>, lower: bool)
    requires forall key :: key in keys ==> key in KEYS && Name(key, lower) in d
    requires forall name :: name in d ==> ';' !in d[name]
    ensures forall c :: c in Printed(d, keys, lower) ==> ';' !in c
    ensures forall i :: 0 <= i < |keys| ==> Printed(d, keys, lower)[i] != ""
  {
    var components := Printed(d, keys, lower);
    forall c | c in components ensures ';' !in c {
      var i :| 0 <= i < |components| && components[i] == c;
      KeysAreUpper(keys[i]);
    }
  }

  // ---------------------------------------------------------------- the sides compared

  lemma BothRead(components: seq<string>)
    ensures Read(components, false).Some? <==> Read(components, true).Some?
  {
    ReadExactly(components, false);
    ReadExactly(components, true);
  }

  lemma SameEntry(components: seq<string>, key: string)
    requires key in KEYS && Read(components, false).Some? && Read(components, true).Some?
    ensures key in Read(components, false).value <==> Lower(key) in Read(components, true).value
    ensures key in Read(components, false).value ==>
      Read(components, true).value[Lower(key)] == Read(components, false).value[key]
  {
    LastDuplicateWins(components, false, key);
    LastDuplicateWins(components, true, key);
  }

  /** The two dictionaries have the same entries up to the case of the keys. */
  lemma SameEntries(lib: Library, rule: string, key: string)
    requires key in KEYS && Accepted(lib, rule, false).Some? && Accepted(lib, rule, true).Some?
    ensures var control, celery := Accepted(lib, rule, false).value, Accepted(lib, rule, true).value;
      && (key in control <==> Lower(key) in celery)
      && (key in control ==> celery[Lower(key)] == control[key])
      && (forall name :: name in control ==> name in KEYS)
      && (forall name :: name in celery ==> exists k :: k in KEYS && Lower(k) == name)
  {
    var components := Split(rule, ';');
    SameEntry(components, key);
    forall name | name in Read(components, false).value ensures name in KEYS {
      NamesAreKeys(components, false, name);
    }
    forall name | name in Read(components, true).value ensures exists k :: k in KEYS && Lower(k) == name {
      NamesAreKeys(components, true, name);
      var k :| k in KEYS && Name(k, true) == name;
    }
  }

  lemma SoundBoth(lib: Library, components: seq<string>)
    requires forall f :: f in FREQUENCIES ==> lib.upper(f) == f
    requires Read(components, false).Some? && Read(components, true).Some?
    ensures Sound(lib, Read(components, false).value, false) <==>
      && Sound(lib, Read(components, true).value, true)
      && Read(components, true).value[Name("FREQ", true)] in FREQUENCIES
  {
    SameEntry(components, "FREQ");
    SameEntry(components, "INTERVAL");
    SameEntry(components, "UNTIL");
  }

  /** The control side accepts exactly the rules a celery side accepts whose frequency is
      written in upper case. */
  lemma ControlExactly(lib: Library, rule: string)
    requires forall f :: f in FREQUENCIES ==> lib.upper(f) == f
    ensures Accepted(lib, rule, false).Some? <==>
      Accepted(lib, rule, true).Some? && Accepted(lib, rule, true).value[Name("FREQ", true)] in FREQUENCIES
  {
    var components := Split(rule, ';');
    BothRead(components);
    if Read(components, false).Some? {
      SoundBoth(lib, components);
    }
  }
}

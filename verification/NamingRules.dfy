/**
 * What the names come to: the text that naming leaves of a qualifier, which sets and key a point's
 * options give it, and that its samples and its descriptor entry say the same.
 */
module NamingRules {
  import opened Common
  import opened Naming

  // ---- sanitizing ----

  /** An ASCII letter or digit, or an underscore, by its code. */
  predicate InName(c: char) {
    var code := c as int;
    65 <= code < 65 + 26 || 97 <= code < 97 + 26 || 48 <= code < 48 + 10 || code == 95
  }

  /** A usable name is not empty and has only ASCII letters, digits and underscores. */
  lemma ValidSetExactly(name: string)
    ensures IsValidSet(name) <==> |name| > 0 && forall c | c in name :: InName(c)
    ensures forall c :: IsAlnum(c) <==> InName(c) && c != '_'
  {
    assert forall i | 0 <= i < |name| :: name[i] in name;
  }

  /** The maximal runs of letters and digits; `word` is the run being read. */
  function Words(s: string, word: string): seq<string>
    decreases |s|
  {
    if s == "" then (if word == "" then [] else [word])
    else if IsAlnum(s[0]) then Words(s[1..], word + [s[0]])
    else (if word == "" then [] else [word]) + Words(s[1..], "")
  }

  lemma {:induction false} SkippedWords(s: string)
    ensures Words(SkipRun(s), "") == Words(s, "")
    ensures s != "" ==> (SkipRun(s) == "" ==> !IsAlnum(s[|s| - 1]))
    ensures SkipRun(s) != "" ==> SkipRun(s)[|SkipRun(s)| - 1] == s[|s| - 1]
    decreases |s|
  {
    if s != "" && !IsAlnum(s[0]) {
      SkippedWords(s[1..]);
    }
  }

  lemma {:induction false} SanitizedWords(s: string, word: string)
    ensures Words(Sanitize(s), word) == Words(s, word)
    decreases |s|
  {
    if s != "" {
      var rest := if IsAlnum(s[0]) then s[1..] else SkipRun(s[1..]);
      var c := if IsAlnum(s[0]) then s[0] else '_';
      assert Sanitize(s) == [c] + Sanitize(rest) && ([c] + Sanitize(rest))[1..] == Sanitize(rest);
      if IsAlnum(s[0]) {
        SanitizedWords(rest, word + [s[0]]);
      } else {
        SkippedWords(s[1..]);
        SanitizedWords(rest, "");
      }
    }
  }

  /**
   * Sanitizing keeps every run of letters and digits, puts a single underscore wherever there was anything
   * between two of them, before the first or after the last, and nothing else.
   */
  lemma {:induction false} SanitizeIs(s: string)
    ensures var r := Sanitize(s);
            && Words(r, "") == Words(s, "")
            && (forall i | 0 <= i < |r| - 1 :: !(r[i] == '_' && r[i + 1] == '_'))
            && (r == "" <==> s == "")
            && (s != "" ==> (r[0] == '_' <==> !IsAlnum(s[0])) && (r[|r| - 1] == '_' <==> !IsAlnum(s[|s| - 1])))
    decreases |s|
  {
    SanitizedWords(s, "");
    if s != "" {
      hide Words;
      var rest := if IsAlnum(s[0]) then s[1..] else SkipRun(s[1..]);
      var c := if IsAlnum(s[0]) then s[0] else '_';
      var r := Sanitize(s);
      assert r == [c] + Sanitize(rest);
      SkippedWords(s[1..]);
      SanitizeIs(rest);
      forall i | 0 <= i < |r| - 1
        ensures !(r[i] == '_' && r[i + 1] == '_')
      {
        assert r[i + 1] == Sanitize(rest)[i];
        assert i > 0 ==> r[i] == Sanitize(rest)[i - 1];
      }
    }
  }

  // ---- options ----

  /** Two names with the one dot of `key` between them. */
  predicate DottedAs(key: string, a: string, b: string) {
    key == a + "." + b && a != "" && b != "" && '.' !in a && '.' !in b
  }

  lemma DottedKeyExactly(key: string, a: string, b: string)
    ensures DottedKey(key) == Some((a, b)) <==> DottedAs(key, a, b)
  {
    if DottedAs(key, a, b) {
      var dot := IndexOf(key, '.', 0);
      assert key[|a|] == '.' && key[..|a|] == a && key[|a| + 1..] == b;
      assert key[0..] == key;
      assert dot == |a|;
    }
  }

  predicate Usable(name: string, validate: bool) {
    name != "" && (validate ==> IsValidSet(name))
  }

  ghost predicate NoRepeats(names: seq<string>) {
    forall i, j | 0 <= i < j < |names| :: names[i] != names[j]
  }

  lemma {:induction false} NamesOfExactly(given: seq<string>, validate: bool, out: seq<string>)
    requires NoRepeats(out) && forall n | n in out :: n != "" && (validate ==> IsValidSet(n))
    ensures var r := NamesOf(given, validate, out);
            && NoRepeats(r) && forall n :: n in r <==> n in out || (n in given && Usable(n, validate))
    decreases |given|
  {
    if given != [] {
      var name, rest := given[0], given[1..];
      hide IsValidSet;
      assert forall n :: n in given <==> n == name || n in rest;
      NamesOfExactly(rest, validate,
        if name == "" || name in out || (validate && !IsValidSet(name)) then out else out + [name]);
    }
  }

  lemma {:induction false} GroupSetsExactly(groups: seq<string>, names: Names, out: seq<SetName>)
    requires NoRepeats(out) && forall s | s in out :: Publishable(names.forced, s)
    ensures var r := GroupSets(groups, names, out);
            && NoRepeats(r) && forall s :: s in r <==> s in out || exists g | g in groups :: s == SetFor(names, g)
    decreases |groups|
  {
    if groups != [] {
      hide SetFor;
      var group, rest := groups[0], groups[1..];
      var name := SetFor(names, group);
      assert forall g :: g in groups <==> g == group || g in rest;
      GroupSetsExactly(rest, names, if name in out then out else out + [name]);
    }
  }

  /** What a name in the options counts for. */
  predicate UsableFragment(options: Options) {
    options.fragment.Some? && IsValidSet(options.fragment.value)
  }

  /** The key names the set it belongs to. */
  ghost predicate NamesItsSet(options: Options, name: SetName) {
    options.key.Some? && IsValidSet(name) && exists b :: DottedAs(options.key.value, name, b)
  }

  lemma KeyNamesSet(options: Options, name: SetName)
    ensures NamesItsSet(options, name) <==>
            options.key.Some? && IsValidSet(name)
                && DottedKey(options.key.value).Some? && DottedKey(options.key.value).value.0 == name
  {
    hide IsValidSet, DottedKey, DottedAs;
    if options.key.Some? {
      var key := options.key.value;
      if NamesItsSet(options, name) {
        var b :| DottedAs(key, name, b);
        DottedKeyExactly(key, name, b);
      }
      if DottedKey(key).Some? {
        DottedKeyExactly(key, DottedKey(key).value.0, DottedKey(key).value.1);
      }
    }
  }

  /** The set of a device's group: what its qualifier and the group make, or the one name everything is forced to. */
  function GroupSet(names: Names, group: string): SetName {
    if names.forced != "" then names.forced
    else Sanitize(names.qualifier + "_" + (if group == "" then "control" else group) + "_parameters")
  }

  /**
   * Which sets a point is in, each once: the fragment of a literal, else the set its key names, else all the
   * plain identifiers among the sets it names, else the forced set, else one set per group, else the default.
   */
  lemma SetsOfExactly(options: Options, names: Names, s: SetName)
    ensures NoRepeats(SetsOf(options, names)) && SetsOf(options, names) != []
    ensures s in SetsOf(options, names) <==>
            if UsableFragment(options) then s == options.fragment.value
            else if exists n :: NamesItsSet(options, n) then NamesItsSet(options, s)
            else if exists n | n in options.sets :: IsValidSet(n) then s in options.sets && IsValidSet(s)
            else if names.forced != "" then s == names.forced
            else if exists g | g in options.groups :: g != "" then
              exists g | g in options.groups :: g != "" && s == GroupSet(names, g)
            else s == GroupSet(names, "")
  {
    hide IsValidSet, DottedKey, Sanitize, DottedAs, Publishable, NoRepeats, NamesItsSet;
    NoRepeatsOne(if options.fragment.Some? then options.fragment.value else "");
    NoRepeatsOne(names.forced);
    NoRepeatsOne(SetFor(names, ""));
    KeyNamesSet(options, s);
    if options.key.Some? && DottedKey(options.key.value).Some? {
      NoRepeatsOne(DottedKey(options.key.value).value.0);
      KeyNamesSet(options, DottedKey(options.key.value).value.0);
    }
    forall n
      ensures NamesItsSet(options, n) ==>
                options.key.Some? && IsValidSet(n) && DottedKey(options.key.value).Some?
                && DottedKey(options.key.value).value.0 == n
    {
      KeyNamesSet(options, n);
    }
    AbsoluteAndGroups(options, names);
  }

  lemma NoRepeatsOne(s: SetName)
    ensures NoRepeats([s]) && forall x :: x in [s] <==> x == s
  {
  }

  lemma AbsoluteAndGroups(options: Options, names: Names)
    ensures var absolute := NamesOf(options.sets, true, []);
            && NoRepeats(absolute) && (forall n :: n in absolute <==> n in options.sets && IsValidSet(n))
            && (absolute == [] <==> !exists n | n in options.sets :: IsValidSet(n))
    ensures var groups := NamesOf(options.groups, false, []);
            && (groups == [] <==> !exists g | g in options.groups :: g != "")
            && (var sets := GroupSets(groups, names, []);
                && NoRepeats(sets) && (groups != [] ==> sets != [])
                && forall s :: s in sets <==> exists g | g in options.groups :: g != "" && s == SetFor(names, g))
  {
    NamesOfExactly(options.sets, true, []);
    NamesOfExactly(options.groups, false, []);
    var absolute, groups := NamesOf(options.sets, true, []), NamesOf(options.groups, false, []);
    GroupSetsExactly(groups, names, []);
    assert absolute != [] ==> absolute[0] in absolute;
    assert groups != [] ==> groups[0] in groups && SetFor(names, groups[0]) in GroupSets(groups, names, []);
    hide SetFor, NoRepeats, AllIdentifier;
    assert forall n :: IsValidSet(n) ==> n != "";
  }

  /** The plain identifier a key option comes to: what is after its dot, if it has one, else all of it. */
  ghost predicate KeyComesTo(options: Options, key: Key) {
    && options.key.Some? && IsValidSet(key)
    && ((exists a :: DottedAs(options.key.value, a, key))
        || (options.key.value == key && !exists a, b :: DottedAs(options.key.value, a, b)))
  }

  lemma KeyNameExactly(options: Options, key: Key)
    ensures KeyName(options.key) == Some(key) <==> KeyComesTo(options, key)
  {
    hide IsValidSet, DottedKey, DottedAs;
    if options.key.Some? {
      var k := options.key.value;
      forall a, b
        ensures DottedAs(k, a, b) <==> DottedKey(k) == Some((a, b))
      {
        DottedKeyExactly(k, a, b);
      }
      if DottedKey(k).Some? {
        assert DottedAs(k, DottedKey(k).value.0, DottedKey(k).value.1);
      }
    }
  }

  /** The key a point is published under: the literal one, what its key option comes to, or its own id. */
  lemma KeysExactly(options: Options, point: Point, key: Key)
    ensures DeclaredKey(options) == Some(key) <==>
            if UsableFragment(options) then key == LITERAL_KEY else KeyComesTo(options, key)
    ensures KeyFromSample(Table(options), point) == key <==>
            if UsableFragment(options) then key == LITERAL_KEY
            else KeyComesTo(options, key) || (key == point && !exists k :: KeyComesTo(options, k))
  {
    hide KeyName, KeyComesTo, IsValidSet;
    KeyNameExactly(options, key);
    if KeyName(options.key).Some? {
      KeyNameExactly(options, KeyName(options.key).value);
    }
    forall k
      ensures KeyComesTo(options, k) <==> KeyName(options.key) == Some(k)
    {
      KeyNameExactly(options, k);
    }
  }

  /**
   * A point's descriptor entry and its samples with the same options place it alike, in the same sets under
   * the same key, so neither undoes the other.
   */
  lemma SampleAndDescriptorAgree(options: Options, names: Names, writable: bool, point: Point)
    requires DeclaredKey(options).Some?
    ensures SetsFromSample(Table(options), writable, names) == InSets(SetsOf(options, names))
    ensures DeclaredKey(options) == Some(KeyFromSample(Table(options), point))
  {
    hide KeyName, IsValidSet, SetsOf;
  }

  /** Without options a writable point is in the default set and any other in none; a scalar option is a parameter. */
  lemma WithoutOptions(meta: Meta, writable: bool, names: Names, point: Point)
    requires !meta.Table?
    ensures KeyFromSample(meta, point) == point
    ensures SetsFromSample(meta, writable, names).NotAParameter? <==> meta.OptOut? || (meta.Absent? && !writable)
    ensures forall sets | SetsFromSample(meta, writable, names) == InSets(sets) ::
              sets == [if meta.SetNamed? && IsValidSet(meta.name) then meta.name else GroupSet(names, "")]
  {
    hide AllIdentifier, Sanitize;
  }
}

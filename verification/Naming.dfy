/**
 * How a parameter is named: the sets (twin fragments) a point belongs to and the key it is
 * published under in them.
 */
module Naming {
  import opened Common

  type Point = string
  type SetName = string
  type Key = string
  type Protocol = string

  /** No option can name the empty key, so it stands for the one value of a fragment that is not an object. */
  const LITERAL_KEY: Key := ""

  const DEFAULT_GROUP := "control"

  /** The options of `meta.parameter` or of a descriptor entry; `sets` and `groups` are the strings given. */
  datatype Options = Options(fragment: Option<string>, key: Option<string>, sets: seq<string>, groups: seq<string>)

  /** `meta.parameter` of a sample. */
  datatype Meta = Absent | OptOut | SetNamed(name: string) | Table(options: Options) | OtherScalar

  /** The verdict on a point: no parameter at all, or one in these sets. */
  datatype Placement = NotAParameter | InSets(sets: seq<SetName>)

  /** `forced` overrides the default set unless it is ""; `qualifier` starts the names of the others. */
  datatype Names = Names(forced: string, qualifier: string)

  predicate IsAlnum(c: char) {
    'A' <= c <= 'Z' || 'a' <= c <= 'z' || '0' <= c <= '9'
  }

  predicate AllIdentifier(s: string) {
    forall i | 0 <= i < |s| :: IsAlnum(s[i]) || s[i] == '_'
  }

  /** A plain identifier: usable both as a fragment key and as one topic segment. */
  predicate IsValidSet(name: string) {
    name != "" && AllIdentifier(name)
  }

  /** `s` from its first letter or digit on. */
  function SkipRun(s: string): (r: string)
    ensures |r| <= |s|
    ensures r != "" ==> IsAlnum(r[0])
  {
    if s != "" && !IsAlnum(s[0]) then SkipRun(s[1..]) else s
  }

  /** A plain identifier made of any text: what is between its letters and digits shrinks to single underscores. */
  function Sanitize(s: string): (r: string)
    ensures AllIdentifier(r)
    ensures s != "" ==> r != ""
    decreases |s|
  {
    if s == "" then ""
    else if IsAlnum(s[0]) then [s[0]] + Sanitize(s[1..])
    else "_" + Sanitize(SkipRun(s[1..]))
  }

  function SetFor(names: Names, group: string): SetName {
    if names.forced != "" then names.forced
    else Sanitize(names.qualifier + "_" + (if group == "" then DEFAULT_GROUP else group) + "_parameters")
  }

  function IndexOf(s: string, c: char, from: nat): (i: int)
    requires from <= |s|
    ensures i == -1 <==> c !in s[from..]
    ensures i != -1 ==> from <= i < |s| && s[i] == c && c !in s[from..i]
    decreases |s| - from
  {
    if from == |s| then -1
    else if s[from] == c then from
    else IndexOf(s, c, from + 1)
  }

  /** A key with exactly one dot, inside it, stands for two names: a set's and a key's. */
  function DottedKey(key: string): (r: Option<(string, string)>)
    ensures r.Some? ==> key == r.value.0 + "." + r.value.1 && r.value.0 != "" && r.value.1 != ""
                        && '.' !in r.value.0 && '.' !in r.value.1
  {
    var dot := IndexOf(key, '.', 0);
    if dot <= 0 || dot == |key| - 1 || IndexOf(key, '.', dot + 1) != -1 then None
    else
      assert key == key[..dot] + "." + key[dot + 1..];
      Some((key[..dot], key[dot + 1..]))
  }

  /** What a `key` option comes to: its part after the dot, if it has one, when that is a plain identifier. */
  function KeyName(key: Option<string>): (r: Option<Key>)
    ensures r.Some? ==> IsValidSet(r.value)
  {
    if key.None? then None
    else
      var dotted := DottedKey(key.value);
      var name := if dotted.Some? then dotted.value.1 else key.value;
      if IsValidSet(name) then Some(name) else None
  }

  function FragmentOf(options: Options): (r: Option<SetName>)
    ensures r.Some? ==> IsValidSet(r.value)
  {
    if options.fragment.Some? && IsValidSet(options.fragment.value) then options.fragment else None
  }

  /** The usable names given, each once, in order. */
  function NamesOf(given: seq<string>, validate: bool, out: seq<string>): (r: seq<string>)
    requires forall n | n in out :: n != "" && (validate ==> IsValidSet(n))
    ensures forall n | n in r :: n != "" && (validate ==> IsValidSet(n))
    decreases |given|
  {
    if given == [] then out
    else
      var name := given[0];
      if name == "" || name in out || (validate && !IsValidSet(name)) then NamesOf(given[1..], validate, out)
      else NamesOf(given[1..], validate, out + [name])
  }

  function GroupSets(groups: seq<string>, names: Names, out: seq<SetName>): (r: seq<SetName>)
    requires forall s | s in out :: Publishable(names.forced, s)
    ensures forall s | s in r :: Publishable(names.forced, s)
    decreases |groups|
  {
    if groups == [] then out
    else
      var set_ := SetFor(names, groups[0]);
      GroupSets(groups[1..], names, if set_ in out then out else out + [set_])
  }

  /** A name the flow may publish on: a plain identifier, or the name its own configuration forces. */
  predicate Publishable(forced: string, name: SetName) {
    IsValidSet(name) || (forced != "" && name == forced)
  }

  /**
   * Whichever of these comes first: the fragment of a literal, the set before a key's dot, the named
   * sets, the forced set, a set per group, the default. Whatever the options say, no name
   * that is neither a plain identifier nor the configured default can come out.
   */
  function SetsOf(options: Options, names: Names): (r: seq<SetName>)
    ensures forall s | s in r :: Publishable(names.forced, s)
  {
    var fragment := FragmentOf(options);
    if fragment.Some? then [fragment.value]
    else
      var dotted := if options.key.Some? then DottedKey(options.key.value) else None;
      if dotted.Some? && IsValidSet(dotted.value.0) then [dotted.value.0]
      else
        var absolute := NamesOf(options.sets, true, []);
        if absolute != [] then absolute
        else if names.forced != "" then [names.forced]
        else
          var groups := NamesOf(options.groups, false, []);
          if groups == [] then [SetFor(names, "")] else GroupSets(groups, names, [])
  }

  /** A sample's verdict: its options decide, and without any a writable point is in the default set. */
  function SetsFromSample(meta: Meta, writable: bool, names: Names): (r: Placement)
    ensures r.InSets? ==> forall s | s in r.sets :: Publishable(names.forced, s)
  {
    match meta
    case OptOut => NotAParameter
    case SetNamed(name) => InSets([if name != "" && IsValidSet(name) then name else SetFor(names, "")])
    case Table(options) => InSets(SetsOf(options, names))
    case Absent => if writable then InSets([SetFor(names, "")]) else NotAParameter
    case OtherScalar => InSets([SetFor(names, "")])
  }

  /** A literal's key, the key its options come to, or the point's own id. */
  function KeyFromSample(meta: Meta, point: Point): (r: Key)
    ensures r == LITERAL_KEY || r == point || IsValidSet(r)
  {
    if !meta.Table? then point
    else if FragmentOf(meta.options).Some? then LITERAL_KEY
    else
      var name := KeyName(meta.options.key);
      if name.Some? then name.value else point
  }

  /** The same for a descriptor entry, which is unusable without a key. */
  function DeclaredKey(options: Options): Option<Key> {
    if FragmentOf(options).Some? then Some(LITERAL_KEY) else KeyName(options.key)
  }
}

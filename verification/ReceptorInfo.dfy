/** The receptor's description of itself, and the parser with which an emitter reads it. Strings hold no NUL. */
module ReceptorInfo {
  import opened Options

  const SEPARATORS: set<char> := {' ', ',', ';'}
  const QUOTES: set<char> := {'"', '\''}

  // ---- the parser -------------------------------------------------------------------

  predicate OccursAt(s: string, key: string, p: nat) {
    p + |key| <= |s| && s[p..p + |key|] == key
  }

  /** key stands at p as a word of its own, followed by an equals sign. */
  predicate KeyAt(s: string, key: string, p: nat) {
    && OccursAt(s, key, p)
    && (p == 0 || s[p - 1] in SEPARATORS)
    && p + |key| < |s| && s[p + |key|] == '='
  }

  /** First position from `from` on where the key stands, or beyond the end of s. */
  function FirstKey(s: string, key: string, from: nat): (p: nat)
    ensures p >= from && (p <= |s| ==> KeyAt(s, key, p))
    ensures forall k :: from <= k < p ==> !KeyAt(s, key, k)
    decreases |s| + 1 - from
  {
    if from > |s| || KeyAt(s, key, from) then from else FirstKey(s, key, from + 1)
  }

  function UpTo(t: string, stops: set<char>): (v: string)
    ensures v <= t && (forall k :: 0 <= k < |v| ==> v[k] !in stops)
    ensures |v| < |t| ==> t[|v|] in stops
  {
    if t == "" || t[0] in stops then "" else [t[0]] + UpTo(t[1..], stops)
  }

  /** The value at the start of t: up to the closing quote if it is quoted, up to a separator if not. */
  function ValueOf(t: string): string {
    if t != "" && t[0] in QUOTES then UpTo(t[1..], {t[0]}) else UpTo(t, SEPARATORS)
  }

  function Lookup(s: string, key: string, resSize: nat): Option<string> {
    var p := FirstKey(s, key, 0);
    if p > |s| then None
    else
      var v := ValueOf(s[p + |key| + 1..]);
      if |v| < resSize then Some(v) else None
  }

  /** strstr from offset `from`; beyond the end of s when the key does not occur. */
  method StrStr(s: string, key: string, from: nat) returns (p: nat)
    ensures p >= from && (p <= |s| ==> OccursAt(s, key, p)) && forall k :: from <= k < p ==> !OccursAt(s, key, k)
  {
    p := from;
    while p <= |s| && !OccursAt(s, key, p)
      invariant p >= from && forall k :: from <= k < p ==> !OccursAt(s, key, k)
    {
      p := p + 1;
    }
  }

  lemma {:induction false} UpToIs(t: string, stops: set<char>, n: nat)
    requires n <= |t| && (forall k :: 0 <= k < n ==> t[k] !in stops) && (n < |t| ==> t[n] in stops)
    ensures UpTo(t, stops) == t[..n]
  {
    if n > 0 {
      UpToIs(t[1..], stops, n - 1);
    }
  }

  method ValueLength(t: string, stops: set<char>) returns (n: nat)
    ensures n == |UpTo(t, stops)| && t[..n] == UpTo(t, stops)
  {
    n := 0;
    while n < |t| && t[n] !in stops
      invariant n <= |t| && forall k :: 0 <= k < n ==> t[k] !in stops
    {
      n := n + 1;
    }
    UpToIs(t, stops, n);
  }

  /** The value at the start of t, if it fits in the result. */
  method ReadValue(t: string, resSize: nat) returns (res: Option<string>)
    ensures res == if |ValueOf(t)| < resSize then Some(ValueOf(t)) else None
  {
    res := None;
    if t != "" && t[0] in QUOTES {
      var n := ValueLength(t[1..], {t[0]});
      if n < resSize {
        res := Some(t[1..][..n]);
      }
    } else {
      var n := ValueLength(t, SEPARATORS);
      if n < resSize {
        res := Some(t[..n]);
      }
    }
  }

  method GetValueByKey(source: string, key: string, resSize: nat) returns (res: Option<string>)
    requires key != "" || FirstKey(source, key, 0) <= |source|
    ensures res == Lookup(source, key, resSize)
  {
    hide ValueOf, FirstKey;
    res := None;
    if resSize != 0 {
      var ptr := StrStr(source, key, 0);
      while ptr <= |source| && !KeyAt(source, key, ptr)
        invariant ptr <= |source| ==> OccursAt(source, key, ptr)
        invariant forall k :: 0 <= k < ptr ==> !KeyAt(source, key, k)
        decreases |source| - ptr
      {
        ptr := StrStr(source, key, ptr + 1);
      }
      if ptr <= |source| {
        assert ptr == FirstKey(source, key, 0);
        res := ReadValue(source[ptr + |key| + 1..], resSize);
      }
    }
  }

  // ---- the printer ------------------------------------------------------------------

  function Digit(d: nat): char
    requires d < 10
  {
    "0123456789"[d]
  }

  /** printf's %d. */
  function Decimal(n: int): string
    decreases n < 0, if n < 0 then -n else n
  {
    if n < 0 then "-" + Decimal(-n)
    else if n < 10 then [Digit(n)]
    else Decimal(n / 10) + [Digit(n % 10)]
  }

  datatype Field = Field(key: string, value: string)

  function Printed(f: Field): string {
    f.key + "=" + f.value
  }

  function Joined(fs: seq<Field>): string {
    if fs == [] then ""
    else if |fs| == 1 then Printed(fs[0])
    else Printed(fs[0]) + " " + Joined(fs[1..])
  }

  datatype Settings = Settings(multistream: bool, name: string, channels: nat, samplerate: int, format: nat, flags: nat)

  /** What the first sprintf prints, less the space at its end. */
  function FirstFields(c: Settings): seq<Field> {
    if c.multistream then [Field("servername", c.name)]
    else [Field("streamnamerx", c.name), Field("nbchannels", Decimal(c.channels))]
  }

  function LastFields(c: Settings): seq<Field> {
    [Field("samplerate", Decimal(c.samplerate)), Field("format", Decimal(c.format)), Field("flags", Decimal(c.flags))]
  }

  /** The two calls of sprintf, the second appending to the first. */
  function Info(c: Settings): string {
    Joined(FirstFields(c)) + " " + Joined(LastFields(c))
  }

  lemma {:induction false} JoinedTwice(a: seq<Field>, b: seq<Field>)
    requires a != [] && b != []
    ensures Joined(a + b) == Joined(a) + " " + Joined(b)
  {
    if |a| == 1 {
      assert (a + b)[1..] == b;
    } else {
      JoinedTwice(a[1..], b);
      assert (a + b)[1..] == a[1..] + b;
    }
  }

  // ---- what comes back --------------------------------------------------------------

  predicate Free(t: string, cs: set<char>) {
    forall k :: 0 <= k < |t| ==> t[k] !in cs
  }

  /** A field that the separators cannot confuse; its value may contain equals signs and other keys. */
  predicate Clean(f: Field) {
    Free(f.key, SEPARATORS + {'='}) && Free(f.value, SEPARATORS)
  }

  lemma FreeJoined(a: string, b: string, cs: set<char>)
    requires Free(a, cs) && Free(b, cs)
    ensures Free(a + b, cs)
  {
  }

  lemma SignsClean(d: nat)
    requires d < 10
    ensures Free([Digit(d)], SEPARATORS + QUOTES) && Free("-", SEPARATORS + QUOTES)
  {
  }

  lemma {:induction false} DecimalClean(n: int)
    ensures Free(Decimal(n), SEPARATORS + QUOTES) && Decimal(n) != ""
    decreases n < 0, if n < 0 then -n else n
  {
    hide Free, Digit;
    if n < 0 {
      SignsClean(0);
      DecimalClean(-n);
      FreeJoined("-", Decimal(-n), SEPARATORS + QUOTES);
    } else {
      SignsClean(n % 10);
      if n >= 10 {
        DecimalClean(n / 10);
        FreeJoined(Decimal(n / 10), [Digit(n % 10)], SEPARATORS + QUOTES);
      }
    }
  }

  lemma {:induction false} UpToClean(v: string, rest: string, stops: set<char>)
    requires Free(v, stops) && (rest == "" || rest[0] in stops)
    ensures UpTo(v + rest, stops) == v
  {
    if v == "" {
      assert v + rest == rest;
    } else {
      UpToClean(v[1..], rest, stops);
      assert (v + rest)[1..] == v[1..] + rest;
    }
  }

  /** At the start of a printed field the key is recognised exactly when it is the field's own. */
  lemma KeyAtStart(f: Field, rest: string, key: string)
    requires Clean(f) && Free(key, {'='})
    ensures KeyAt(Printed(f) + rest, key, 0) <==> key == f.key
  {
    var s := Printed(f) + rest;
    assert s == f.key + "=" + (f.value + rest);
    assert s[..|f.key|] == f.key && s[|f.key|] == '=';
  }

  /** Inside a printed field no key is recognised, whatever the value contains. */
  lemma NoKeyInside(f: Field, rest: string, key: string, p: nat)
    requires Clean(f) && 0 < p <= |Printed(f)|
    ensures !KeyAt(Printed(f) + rest, key, p)
  {
    var s := Printed(f) + rest;
    assert s[p - 1] == Printed(f)[p - 1];
    assert Printed(f)[p - 1] == if p - 1 < |f.key| then f.key[p - 1] else if p - 1 == |f.key| then '='
      else f.value[p - 1 - |f.key| - 1];
  }

  /** Behind a field and its separator the rest is searched as if it stood alone. */
  lemma KeyBehind(a: string, rest: string, key: string, p: nat)
    ensures KeyAt(a + " " + rest, key, |a| + 1 + p) <==> KeyAt(rest, key, p)
  {
    var s := a + " " + rest;
    assert s[|a| + 1..] == rest;
    if p + |key| <= |rest| {
      assert s[|a| + 1 + p..|a| + 1 + p + |key|] == rest[p..p + |key|];
    }
    if p > 0 && p <= |rest| {
      assert s[|a| + 1 + p - 1] == rest[p - 1];
    }
  }

  lemma {:induction false} FirstKeyIs(s: string, key: string, from: nat, p: nat)
    requires from <= p <= |s| && KeyAt(s, key, p) && forall k :: from <= k < p ==> !KeyAt(s, key, k)
    ensures FirstKey(s, key, from) == p
    decreases p - from
  {
    if from < p {
      FirstKeyIs(s, key, from + 1, p);
    }
  }

  /** Index of the first field with the key, or the number of fields. */
  function FieldOf(fs: seq<Field>, key: string): (i: nat)
    ensures i <= |fs| && (i < |fs| ==> fs[i].key == key)
  {
    if fs == [] || fs[0].key == key then 0 else 1 + FieldOf(fs[1..], key)
  }

  /** Where the field i starts in the printed text. */
  function StartOf(fs: seq<Field>, i: nat): nat
    requires i < |fs|
  {
    if i == 0 then 0 else |Printed(fs[0])| + 1 + StartOf(fs[1..], i - 1)
  }

  /** A field with another key is passed over. */
  lemma SearchBehind(f: Field, rest: string, key: string)
    requires Clean(f) && Free(key, {'='}) && f.key != key && FirstKey(rest, key, 0) <= |rest|
    ensures FirstKey(Printed(f) + (" " + rest), key, 0) == |Printed(f)| + 1 + FirstKey(rest, key, 0)
    ensures KeyAt(Printed(f) + (" " + rest), key, |Printed(f)| + 1 + FirstKey(rest, key, 0))
  {
    hide Clean, KeyAt, Free, Printed;
    var a, q := Printed(f), FirstKey(rest, key, 0);
    var s := a + (" " + rest);
    assert s == a + " " + rest;
    KeyBehind(a, rest, key, q);
    forall k | 0 <= k < |a| + 1 + q
      ensures !KeyAt(s, key, k)
    {
      if k == 0 {
        KeyAtStart(f, " " + rest, key);
      } else if k <= |a| {
        NoKeyInside(f, " " + rest, key, k);
      } else {
        KeyBehind(a, rest, key, k - |a| - 1);
      }
    }
    FirstKeyIs(s, key, 0, |a| + 1 + q);
  }

  /** The search ends at the first field that has the key, whatever the values look like. */
  lemma {:induction false} SearchFindsField(fs: seq<Field>, key: string)
    requires (forall k :: 0 <= k < |fs| ==> Clean(fs[k])) && Free(key, {'='}) && FieldOf(fs, key) < |fs|
    ensures FirstKey(Joined(fs), key, 0) == StartOf(fs, FieldOf(fs, key)) <= |Joined(fs)|
  {
    hide Clean, KeyAt, Free, Printed;
    var f := fs[0];
    if f.key == key {
      var rest := if |fs| == 1 then "" else " " + Joined(fs[1..]);
      assert Joined(fs) == Printed(f) + rest;
      KeyAtStart(f, rest, key);
      FirstKeyIs(Joined(fs), key, 0, 0);
    } else {
      SearchFindsField(fs[1..], key);
      assert Joined(fs) == Printed(f) + (" " + Joined(fs[1..]));
      SearchBehind(f, Joined(fs[1..]), key);
    }
  }

  /** The text behind a field's equals sign is its value, then a space or nothing. */
  lemma {:induction false} ValueBehindKey(fs: seq<Field>, i: nat) returns (rest: string)
    requires i < |fs|
    ensures StartOf(fs, i) + |fs[i].key| + 1 <= |Joined(fs)|
    ensures Joined(fs)[StartOf(fs, i) + |fs[i].key| + 1..] == fs[i].value + rest && (rest == "" || rest[0] == ' ')
  {
    var f := fs[0];
    if i == 0 {
      rest := if |fs| == 1 then "" else " " + Joined(fs[1..]);
      assert Joined(fs) == f.key + "=" + (f.value + rest);
    } else {
      rest := ValueBehindKey(fs[1..], i - 1);
      var a := Printed(f) + " ";
      assert Joined(fs) == a + Joined(fs[1..]);
      var j := StartOf(fs[1..], i - 1) + |fs[i].key| + 1;
      assert (a + Joined(fs[1..]))[|a| + j..] == Joined(fs[1..])[j..];
    }
  }

  lemma ValueComesBack(v: string, rest: string)
    requires Free(v, SEPARATORS) && (rest == "" || rest[0] in SEPARATORS)
    ensures ValueOf(v + rest) == v <==> v == "" || v[0] !in QUOTES
  {
    UpToClean(v, rest, SEPARATORS);
    if v == "" {
      assert v + rest == rest;
    } else {
      assert (v + rest)[0] == v[0];
    }
  }

  lemma LookupAt(s: string, key: string, resSize: nat, p: nat, t: string, v: string)
    requires p + |key| + 1 <= |s| && FirstKey(s, key, 0) == p && s[p + |key| + 1..] == t
    ensures Lookup(s, key, resSize) == Some(v) <==> ValueOf(t) == v && |v| < resSize
  {
    hide ValueOf, KeyAt, FirstKey;
  }

  /** Looking up a key in printed fields gives the value of its first field exactly when that value does
      not start with a quote and fits in the result. */
  lemma LookupFindsValue(fs: seq<Field>, key: string, resSize: nat)
    requires (forall k :: 0 <= k < |fs| ==> Clean(fs[k])) && Free(key, {'='}) && FieldOf(fs, key) < |fs|
    ensures var v := fs[FieldOf(fs, key)].value;
      Lookup(Joined(fs), key, resSize) == Some(v) <==> (v == "" || v[0] !in QUOTES) && |v| < resSize
  {
    var i, s := FieldOf(fs, key), Joined(fs);
    var p, v := StartOf(fs, i), fs[i].value;
    var rest := ValueBehindKey(fs, i);
    assert Free(v, SEPARATORS) by {
      assert Clean(fs[i]);
    }
    SearchFindsField(fs, key);
    ValueComesBack(v, rest);
    LookupAt(s, key, resSize, p, v + rest, v);
  }

  /** A name with a separator in it is cut short. */
  lemma SeparatorCutsName(name: string, rest: string)
    requires !Free(name, SEPARATORS) && name[0] !in QUOTES
    ensures ValueOf(name + rest) != name
  {
    assert (name + rest)[0] == name[0];
    assert Free(UpTo(name + rest, SEPARATORS), SEPARATORS);
  }

  lemma QuoteIsDropped(name: string, rest: string)
    requires name != "" && name[0] in QUOTES
    ensures ValueOf(name + rest) != name
  {
    assert (name + rest)[0] == name[0];
    var u := ValueOf(name + rest);
    assert Free(u, {name[0]});
  }

  /** The value of the first field comes back exactly when it has no separator in it, does not start
      with a quote and fits in the result. */
  lemma FirstFieldComesBack(f: Field, rest: string, resSize: nat)
    requires rest == "" || rest[0] in SEPARATORS
    ensures Lookup(Printed(f) + rest, f.key, resSize) == Some(f.value)
            <==> Free(f.value, SEPARATORS) && (f.value == "" || f.value[0] !in QUOTES) && |f.value| < resSize
  {
    var s := Printed(f) + rest;
    assert s == f.key + "=" + (f.value + rest);
    assert s[..|f.key|] == f.key && s[|f.key|] == '=' && s[|f.key| + 1..] == f.value + rest;
    FirstKeyIs(s, f.key, 0, 0);
    LookupAt(s, f.key, resSize, 0, f.value + rest, f.value);
    hide ValueOf, Lookup, KeyAt, Printed;
    if f.value != "" && f.value[0] in QUOTES {
      QuoteIsDropped(f.value, rest);
    } else if Free(f.value, SEPARATORS) {
      ValueComesBack(f.value, rest);
    } else {
      SeparatorCutsName(f.value, rest);
    }
  }

  /** Every field a receptor prints, without its name, is clean. */
  lemma SettingsClean(c: Settings)
    ensures forall k :: 0 <= k < |LastFields(c)| ==> Clean(LastFields(c)[k])
    ensures Clean(Field("nbchannels", Decimal(c.channels)))
  {
    DecimalClean(c.channels);
    DecimalClean(c.samplerate);
    DecimalClean(c.format);
    DecimalClean(c.flags);
  }

  lemma NamesClean(name: string)
    requires Free(name, SEPARATORS)
    ensures Clean(Field("servername", name)) && Clean(Field("streamnamerx", name))
  {
  }

  lemma AllClean(c: Settings)
    requires Free(c.name, SEPARATORS)
    ensures var fs := FirstFields(c) + LastFields(c);
      forall k :: 0 <= k < |fs| ==> Clean(fs[k])
  {
    SettingsClean(c);
    NamesClean(c.name);
    hide Clean, LastFields;
  }

  function AllFields(c: Settings): seq<Field> {
    FirstFields(c) + LastFields(c)
  }

  lemma KeysDiffer(c: Settings)
    ensures forall j, k :: 0 <= j < k < |AllFields(c)| ==> AllFields(c)[j].key != AllFields(c)[k].key
  {
    assert "nbchannels"[0] != "samplerate"[0] && "servername"[1] != "samplerate"[1];
    assert "format"[1] != "flags"[1];
  }

  lemma {:induction false} FieldOfOwnKey(fs: seq<Field>, k: nat)
    requires k < |fs| && forall i, j :: 0 <= i < j < |fs| ==> fs[i].key != fs[j].key
    ensures FieldOf(fs, fs[k].key) == k
  {
    if k > 0 {
      FieldOfOwnKey(fs[1..], k - 1);
    }
  }

  /** What a receptor prints about itself is read back value by value, even when its stream name contains
      key names or equals signs, provided that the name has no separator in it; a value comes back
      exactly when it does not start with a quote and fits in the result. */
  lemma EveryValueComesBack(c: Settings, k: nat, resSize: nat)
    requires Free(c.name, SEPARATORS) && k < |AllFields(c)|
    ensures var f := AllFields(c)[k];
      Lookup(Info(c), f.key, resSize) == Some(f.value)
      <==> (f.value == "" || f.value[0] !in QUOTES) && |f.value| < resSize
  {
    hide Lookup, FirstFields, LastFields, Clean;
    AllClean(c);
    KeysDiffer(c);
    var fs := AllFields(c);
    FieldOfOwnKey(fs, k);
    assert Free(fs[k].key, {'='}) by {
      KeyOfClean(fs[k]);
    }
    LookupFindsValue(fs, fs[k].key, resSize);
    NonEmptyFields(c);
    JoinedTwice(FirstFields(c), LastFields(c));
  }

  lemma KeyOfClean(f: Field)
    requires Clean(f)
    ensures Free(f.key, {'='})
  {
  }

  lemma NonEmptyFields(c: Settings)
    ensures FirstFields(c) != [] && LastFields(c) != []
    ensures FirstFields(c)[0] == Field(if c.multistream then "servername" else "streamnamerx", c.name)
  {
  }

  /** The stream name itself comes back exactly when it has no separator, does not start with a quote and fits. */
  lemma NameComesBackExactly(c: Settings, resSize: nat)
    ensures Lookup(Info(c), if c.multistream then "servername" else "streamnamerx", resSize) == Some(c.name)
            <==> Free(c.name, SEPARATORS) && (c.name == "" || c.name[0] !in QUOTES) && |c.name| < resSize
  {
    hide Lookup, FirstFields, LastFields, Printed, Free;
    NonEmptyFields(c);
    var fs, f := FirstFields(c), FirstFields(c)[0];
    var tail := " " + Joined(LastFields(c));
    var rest := if |fs| == 1 then tail else " " + Joined(fs[1..]) + tail;
    assert Info(c) == Printed(f) + rest;
    FirstFieldComesBack(f, rest, resSize);
  }

  /** With a separator in the name the condition cannot be dropped: the name can carry a field g of its
      own, and a search for g's key finds that one, whatever the receptor prints for the key. */
  lemma SeparatorOverrides(c: Settings, a: string, g: Field, resSize: nat)
    requires c.name == a + " " + Printed(g) && Free(a, SEPARATORS) && Clean(g)
    requires g.key != "servername" && g.key != "streamnamerx"
    requires (g.value == "" || g.value[0] !in QUOTES) && |g.value| < resSize
    ensures Lookup(Info(c), g.key, resSize) == Some(g.value)
  {
    NonEmptyFields(c);
    NamesClean(a);
    KeyOfClean(g);
    SettingsClean(c);
    var fs := FirstFields(c);
    var first := Field(if c.multistream then "servername" else "streamnamerx", a);
    var all := [first, g] + (fs[1..] + LastFields(c));
    assert fs[1..] == if c.multistream then [] else [Field("nbchannels", Decimal(c.channels))];
    hide Lookup, LastFields, Clean, Decimal, FirstFields;
    assert forall k :: 0 <= k < |all| ==> Clean(all[k]);
    assert all[1..][0] == g;
    assert FieldOf(all, g.key) == 1;
    LookupFindsValue(all, g.key, resSize);
    InjectedField(fs[0], first, g, fs[1..] + LastFields(c));
    assert fs + LastFields(c) == [fs[0]] + (fs[1..] + LastFields(c));
    JoinedTwice(fs, LastFields(c));
  }

  lemma InjectedField(f: Field, first: Field, g: Field, rest: seq<Field>)
    requires f.key == first.key && f.value == first.value + " " + Printed(g) && rest != []
    ensures Joined([f] + rest) == Joined([first, g] + rest)
  {
    assert ([f] + rest)[1..] == rest && ([first, g] + rest)[1..] == [g] + rest && ([g] + rest)[1..] == rest;
    assert Printed(f) == Printed(first) + " " + Printed(g);
  }

  // ---- names with separators --------------------------------------------------------

  /** The value that a reader of the text a alone, with a separator behind it, finds for the key. */
  function Carried(a: string, key: string): Option<string> {
    var p := FirstKey(a + " ", key, 0);
    if p > |a + " "| then None else Some(ValueOf((a + " ")[p + |key| + 1..]))
  }

  lemma OccursChar(s: string, key: string, p: nat, j: nat)
    requires OccursAt(s, key, p) && p <= j < p + |key|
    ensures j < |s| && key[j - p] == s[j]
  {
    assert s[p..p + |key|][j - p] == s[j];
  }

  lemma KeyInside(s: string, key: string, p: nat)
    requires KeyAt(s, key, p)
    ensures p + |key| < |s|
  {
  }

  /** A key does not reach across a separator. */
  lemma KeyBefore(a: string, rest: string, key: string, p: nat)
    requires key != "" && Free(key, SEPARATORS) && p <= |a|
    ensures KeyAt(a + " " + rest, key, p) <==> KeyAt(a + " ", key, p)
    ensures KeyAt(a + " ", key, p) ==> p + |key| < |a|
  {
    var s, u := a + " " + rest, a + " ";
    assert s == u + rest && u[|a|] == s[|a|] == ' ';
    if p + |key| < |u| {
      assert s[p..p + |key|] == u[p..p + |key|] && s[p + |key|] == u[p + |key|];
    } else if OccursAt(s, key, p) {
      OccursChar(s, key, p, |a|);
      assert false;
    }
  }

  lemma {:induction false} UpToSpace(x: string, rest: string, stops: set<char>)
    requires ' ' in stops
    ensures UpTo(x + " " + rest, stops) == UpTo(x + " ", stops)
  {
    if x == "" {
      assert x + " " + rest == " " + rest && x + " " == " ";
    } else {
      assert (x + " " + rest)[1..] == x[1..] + " " + rest && (x + " ")[1..] == x[1..] + " ";
      UpToSpace(x[1..], rest, stops);
    }
  }

  /** Up to a quote: the same, or a space is in both. */
  lemma {:induction false} UpToQuote(x: string, rest: string, q: char)
    requires q != ' '
    ensures UpTo(x + " " + rest, {q}) == UpTo(x + " ", {q})
      || (' ' in UpTo(x + " " + rest, {q}) && ' ' in UpTo(x + " ", {q}))
  {
    if x == "" {
      assert x + " " + rest == " " + rest && x + " " == " ";
      assert (" " + rest)[1..] == rest;
    } else {
      assert (x + " " + rest)[1..] == x[1..] + " " + rest && (x + " ")[1..] == x[1..] + " ";
      UpToQuote(x[1..], rest, q);
    }
  }

  /** What follows a separator matters to no value without separators. */
  lemma ValueBeforeSpace(x: string, rest: string, v: string)
    requires Free(v, SEPARATORS)
    ensures ValueOf(x + " " + rest) == v <==> ValueOf(x + " ") == v
  {
    assert (x + " " + rest)[0] == (x + " ")[0];
    assert x != "" ==> (x + " " + rest)[1..] == x[1..] + " " + rest && (x + " ")[1..] == x[1..] + " ";
    UpToSpace(x, rest, SEPARATORS);
    if x != "" && x[0] in QUOTES {
      UpToQuote(x[1..], rest, x[0]);
    }
  }

  lemma FirstBefore(a: string, rest: string, key: string)
    requires key != "" && Free(key, SEPARATORS) && FirstKey(a + " ", key, 0) <= |a + " "|
    ensures FirstKey(a + " ", key, 0) + |key| < |a|
    ensures FirstKey(a + " " + rest, key, 0) == FirstKey(a + " ", key, 0)
  {
    hide KeyAt, Free, FirstKey;
    var p := FirstKey(a + " ", key, 0);
    KeyInside(a + " ", key, p);
    forall k | 0 <= k <= p
      ensures KeyAt(a + " " + rest, key, k) <==> KeyAt(a + " ", key, k)
    {
      KeyBefore(a, rest, key, k);
    }
    KeyBefore(a, rest, key, p);
    FirstKeyIs(a + " " + rest, key, 0, p);
  }

  /** A key found in the text before a separator is found there whatever follows. */
  lemma FoundBefore(a: string, rest: string, key: string, resSize: nat, v: string)
    requires key != "" && Free(key, SEPARATORS) && Free(v, SEPARATORS) && Carried(a, key).Some?
    ensures Lookup(a + " " + rest, key, resSize) == Some(v) <==> Carried(a, key) == Some(v) && |v| < resSize
  {
    hide KeyAt, FirstKey, ValueOf, Free, Lookup;
    var s, u := a + " " + rest, a + " ";
    var p := FirstKey(u, key, 0);
    FirstBefore(a, rest, key);
    var x := a[p + |key| + 1..];
    assert s[p + |key| + 1..] == x + " " + rest && u[p + |key| + 1..] == x + " ";
    ValueBeforeSpace(x, rest, v);
    LookupAt(s, key, resSize, p, x + " " + rest, v);
  }

  /** A key not found there ... */
  lemma NotBefore(a: string, rest: string, key: string, k: nat)
    requires key != "" && Free(key, SEPARATORS) && FirstKey(a + " ", key, 0) > |a + " "|
    requires k < |a| + 1 + FirstKey(rest, key, 0)
    ensures !KeyAt(a + " " + rest, key, k)
  {
    hide KeyAt, Free, FirstKey;
    if k <= |a| {
      KeyBefore(a, rest, key, k);
    } else {
      KeyBehind(a, rest, key, k - |a| - 1);
    }
  }

  /** ... is looked for behind the separator. */
  lemma NotFoundBefore(a: string, rest: string, key: string)
    requires key != "" && Free(key, SEPARATORS) && FirstKey(a + " ", key, 0) > |a + " "|
    requires FirstKey(rest, key, 0) <= |rest|
    ensures FirstKey(a + " " + rest, key, 0) == |a| + 1 + FirstKey(rest, key, 0)
  {
    hide *;
    var p := |a| + 1 + FirstKey(rest, key, 0);
    KeyBehind(a, rest, key, FirstKey(rest, key, 0));
    forall k | 0 <= k < p
      ensures !KeyAt(a + " " + rest, key, k)
    {
      NotBefore(a, rest, key, k);
    }
    FirstKeyIs(a + " " + rest, key, 0, p);
  }

  /** Looking up a key of clean fields behind any text: their value comes back exactly when the text carries no value
      for the key, or the same one, and the value fits. */
  lemma LookupBehind(a: string, fs: seq<Field>, key: string, resSize: nat)
    requires (forall k :: 0 <= k < |fs| ==> Clean(fs[k])) && key != "" && Free(key, SEPARATORS + {'='})
    requires FieldOf(fs, key) < |fs| && (fs[FieldOf(fs, key)].value == "" || fs[FieldOf(fs, key)].value[0] !in QUOTES)
    ensures var v := fs[FieldOf(fs, key)].value;
      Lookup(a + " " + Joined(fs), key, resSize) == Some(v)
      <==> (Carried(a, key).None? || Carried(a, key) == Some(v)) && |v| < resSize
  {
    hide Clean, Free, KeyAt, FirstKey, ValueOf, Lookup;
    var i := FieldOf(fs, key);
    CleanMeans(fs[i]);
    FreeOfBoth(key);
    if FirstKey(a + " ", key, 0) <= |a + " "| {
      FoundBefore(a, Joined(fs), key, resSize, fs[i].value);
    } else {
      FoundBehind(a, fs, key, resSize);
    }
  }

  lemma CleanMeans(f: Field)
    requires Clean(f)
    ensures Free(f.value, SEPARATORS)
  {
  }

  lemma FreeOfBoth(key: string)
    requires Free(key, SEPARATORS + {'='})
    ensures Free(key, SEPARATORS) && Free(key, {'='})
  {
  }

  lemma FoundBehind(a: string, fs: seq<Field>, key: string, resSize: nat)
    requires (forall k :: 0 <= k < |fs| ==> Clean(fs[k])) && key != "" && Free(key, SEPARATORS) && Free(key, {'='})
    requires FieldOf(fs, key) < |fs| && (fs[FieldOf(fs, key)].value == "" || fs[FieldOf(fs, key)].value[0] !in QUOTES)
    requires FirstKey(a + " ", key, 0) > |a + " "|
    ensures var v := fs[FieldOf(fs, key)].value;
      Lookup(a + " " + Joined(fs), key, resSize) == Some(v) <==> |v| < resSize
  {
    hide Clean, Free, KeyAt, FirstKey, ValueOf, Lookup;
    var i, rest := FieldOf(fs, key), Joined(fs);
    var v := fs[i].value;
    CleanMeans(fs[i]);
    SearchFindsField(fs, key);
    NotFoundBefore(a, rest, key);
    var tail := ValueBehindKey(fs, i);
    ValueComesBack(v, tail);
    var p := StartOf(fs, i);
    assert (a + " " + rest)[|a| + 1 + p + |key| + 1..] == rest[p + |key| + 1..];
    LookupAt(a + " " + rest, key, resSize, |a| + 1 + p, v + tail, v);
  }

  lemma DecimalUnquoted(n: int)
    ensures Decimal(n) == "" || Decimal(n)[0] !in QUOTES
  {
    DecimalClean(n);
  }

  /** The fields behind the name: their values are numbers. */
  lemma NumbersBehindName(c: Settings, k: nat)
    requires 0 < k < |AllFields(c)|
    ensures var f := AllFields(c)[k];
      f.key != "" && Free(f.key, SEPARATORS + {'='}) && Clean(f) && (f.value == "" || f.value[0] !in QUOTES)
  {
    DecimalClean(c.channels);
    DecimalClean(c.samplerate);
    DecimalClean(c.format);
    DecimalClean(c.flags);
    DecimalUnquoted(c.channels);
    DecimalUnquoted(c.samplerate);
    DecimalUnquoted(c.format);
    DecimalUnquoted(c.flags);
    hide Decimal;
  }

  /** With any stream name: a number printed behind it is read back exactly when it fits and the printed name, taken
      alone, carries no value for its key, or the same one. */
  lemma NumberComesBackExactly(c: Settings, k: nat, resSize: nat)
    requires 0 < k < |AllFields(c)|
    ensures var f, name := AllFields(c)[k], Printed(AllFields(c)[0]);
      Lookup(Info(c), f.key, resSize) == Some(f.value)
      <==> (Carried(name, f.key).None? || Carried(name, f.key) == Some(f.value)) && |f.value| < resSize
  {
    hide Lookup, FirstFields, LastFields, Clean, Free, Decimal, Printed, Carried;
    var all := AllFields(c);
    var fs := all[1..];
    forall i | 0 <= i < |fs|
      ensures Clean(fs[i])
    {
      NumbersBehindName(c, i + 1);
    }
    NumbersBehindName(c, k);
    KeysDiffer(c);
    assert forall i, j :: 0 <= i < j < |fs| ==> fs[i].key != fs[j].key;
    FieldOfOwnKey(fs, k - 1);
    LookupBehind(Printed(all[0]), fs, all[k].key, resSize);
    NonEmptyFields(c);
    JoinedTwice(FirstFields(c), LastFields(c));
    assert Joined(all) == Printed(all[0]) + " " + Joined(fs);
  }

  // ---- values in quotes, and numbers --------------------------------------------------

  lemma QuotedValue(q: char, v: string, rest: string)
    requires q in QUOTES
    ensures ValueOf([q] + (v + ([q] + rest))) == v <==> q !in v
  {
    var x := v + ([q] + rest);
    assert ([q] + x)[1..] == x;
    if q !in v {
      UpToClean(v, [q] + rest, {q});
    } else {
      UpToFree(x, {q});
    }
  }

  lemma UpToFree(t: string, stops: set<char>)
    ensures forall c :: c in stops ==> c !in UpTo(t, stops)
  {
    assert forall k :: 0 <= k < |UpTo(t, stops)| ==> UpTo(t, stops)[k] !in stops;
  }

  /** The text behind a key at the start of a text is its value. */
  lemma LookupFirst(key: string, t: string, v: string, resSize: nat)
    ensures Lookup(key + "=" + t, key, resSize) == Some(v) <==> ValueOf(t) == v && |v| < resSize
  {
    hide ValueOf, FirstKey;
    var s := key + "=" + t;
    assert s[..|key|] == key && s[|key|] == '=' && s[|key| + 1..] == t;
    FirstKeyIs(s, key, 0, 0);
    LookupAt(s, key, resSize, 0, t, v);
  }

  /** A value in quotes comes back without them exactly when the quote is not in it and it fits; separators in it do no
      harm. */
  lemma QuotedComesBack(key: string, q: char, v: string, rest: string, resSize: nat)
    requires q == '"' || q == '\''
    ensures Lookup(key + "=" + ([q] + (v + ([q] + rest))), key, resSize) == Some(v) <==> q !in v && |v| < resSize
  {
    hide ValueOf, Lookup;
    QuotedValue(q, v, rest);
    LookupFirst(key, [q] + (v + ([q] + rest)), v, resSize);
  }

  /** A value without quotes ends at a space, a comma or a semicolon: it comes back exactly when it has none of these in
      it, does not start with a quote and fits. */
  lemma PlainComesBack(key: string, v: string, end: char, rest: string, resSize: nat)
    requires end == ' ' || end == ',' || end == ';'
    ensures Lookup(key + "=" + v + ([end] + rest), key, resSize) == Some(v)
            <==> ' ' !in v && ',' !in v && ';' !in v && !("\"" <= v) && !("'" <= v) && |v| < resSize
  {
    FirstFieldComesBack(Field(key, v), [end] + rest, resSize);
    assert Printed(Field(key, v)) == key + "=" + v;
    assert Free(v, SEPARATORS) <==> ' ' !in v && ',' !in v && ';' !in v;
    hide Lookup, Printed;
  }

  /** What the digits of a number say. */
  function Read(s: string): int {
    if s == "" then 0
    else if s[0] == '-' then -Read(s[1..])
    else 10 * Read(s[..|s| - 1]) + (s[|s| - 1] as int - '0' as int)
  }

  /** The printed number is the number. */
  lemma {:induction false} DecimalReads(n: int)
    ensures Read(Decimal(n)) == n
    decreases n < 0, if n < 0 then -n else n
  {
    hide Read;
    if n < 0 {
      DecimalReads(-n);
      ReadNegative(Decimal(-n));
    } else if n < 10 {
      ReadDigit(n);
    } else {
      DecimalReads(n / 10);
      DigitReads(n % 10);
      NoSign(n / 10);
      ReadMore(Decimal(n / 10), Digit(n % 10));
    }
  }

  lemma ReadMore(s: string, c: char)
    requires s != "" && s[0] != '-'
    ensures Read(s + [c]) == 10 * Read(s) + (c as int - '0' as int)
  {
    assert (s + [c])[..|s|] == s;
  }

  lemma ReadDigit(d: nat)
    requires d < 10
    ensures Read([Digit(d)]) == d
  {
    DigitReads(d);
    assert [Digit(d)][..0] == "";
  }

  lemma ReadNegative(s: string)
    ensures Read("-" + s) == -Read(s)
  {
    assert ("-" + s)[1..] == s;
  }

  lemma DigitReads(d: nat)
    requires d < 10
    ensures Digit(d) as int - '0' as int == d && Digit(d) != '-'
  {
  }

  lemma {:induction false} NoSign(n: nat)
    ensures Decimal(n) != "" && Decimal(n)[0] != '-'
  {
    if n >= 10 {
      NoSign(n / 10);
    }
  }

  /** The printed text, field by field. */
  lemma InfoText(c: Settings)
    ensures var numbers := "samplerate=" + Decimal(c.samplerate) + " " +
                           ("format=" + Decimal(c.format) + " " + ("flags=" + Decimal(c.flags)));
      Info(c) ==
        if c.multistream then "servername=" + c.name + " " + numbers
        else "streamnamerx=" + c.name + " " + ("nbchannels=" + Decimal(c.channels)) + " " + numbers
  {
    hide Decimal, Joined, Printed;
    PrintedAs("samplerate", Decimal(c.samplerate), "samplerate=");
    PrintedAs("format", Decimal(c.format), "format=");
    PrintedAs("flags", Decimal(c.flags), "flags=");
    PrintedAs("servername", c.name, "servername=");
    PrintedAs("streamnamerx", c.name, "streamnamerx=");
    PrintedAs("nbchannels", Decimal(c.channels), "nbchannels=");
    var l, f := LastFields(c), FirstFields(c);
    assert l == [l[0], l[1], l[2]];
    JoinedPair(l[1], l[2]);
    JoinedFront(l[0], [l[1], l[2]]);
    assert [l[0]] + [l[1], l[2]] == l;
    if c.multistream {
      JoinedOne(f[0]);
      assert f == [f[0]];
    } else {
      JoinedPair(f[0], f[1]);
      assert f == [f[0], f[1]];
    }
  }

  lemma PrintedAs(key: string, value: string, text: string)
    requires text == key + "="
    ensures Printed(Field(key, value)) == text + value
  {
  }

  lemma JoinedOne(f: Field)
    ensures Joined([f]) == Printed(f)
  {
  }

  lemma JoinedPair(f: Field, g: Field)
    ensures Joined([f, g]) == Printed(f) + " " + Printed(g)
  {
    assert [f, g][1..] == [g];
  }

  lemma JoinedFront(f: Field, fs: seq<Field>)
    requires fs != []
    ensures Joined([f] + fs) == Printed(f) + " " + Joined(fs)
  {
    assert ([f] + fs)[1..] == fs;
  }
}

/** Argument templates of pipeline steps and the substitution of `${name}` in them (pipeline/compiler.py). */
module Templates {
  import opened Wrappers

  // The pattern \$\{([A-Za-z_][A-Za-z0-9_]*)}

  predicate NameStart(c: char) {
    'A' <= c <= 'Z' || 'a' <= c <= 'z' || c == '_'
  }

  predicate NameChar(c: char) {
    NameStart(c) || '0' <= c <= '9'
  }

  /** How many name characters `s` starts with. */
  function NameLength(s: string): (n: nat)
    ensures n <= |s| && (forall i :: 0 <= i < n ==> NameChar(s[i])) && (n < |s| ==> !NameChar(s[n]))
  {
    if s == "" || !NameChar(s[0]) then 0 else 1 + NameLength(s[1..])
  }

  /** The name of the reference that `s` starts with, if any. */
  function ReferenceAt(s: string): (name: Option<string>)
    ensures name.Some? ==> |name.value| + 3 <= |s| && s[..|name.value| + 3] == "${" + name.value + "}"
    ensures name.Some? ==> forall i :: 0 <= i < |name.value| ==> NameChar(name.value[i])
  {
    if |s| < 4 || s[0] != '$' || s[1] != '{' || !NameStart(s[2]) then None
    else
      var n := NameLength(s[2..]);
      if 2 + n < |s| && s[2 + n] == '}' then Some(s[2..2 + n]) else None
  }

  type Variables = map<string, string>

  /** `_VAR_RE.sub(lambda m: merged.get(m.group(1), m.group(0)), s)` */
  function Substitute(s: string, vars: Variables): string
    decreases |s|
  {
    if s == "" then ""
    else
      match ReferenceAt(s)
      case Some(name) =>
        (if name in vars then vars[name] else s[..|name| + 3]) + Substitute(s[|name| + 3..], vars)
      case None => [s[0]] + Substitute(s[1..], vars)
  }

  /** The names `_VAR_RE.finditer(s)` finds, left to right. */
  function References(s: string): seq<string>
    decreases |s|
  {
    if s == "" then []
    else
      match ReferenceAt(s)
      case Some(name) => [name] + References(s[|name| + 3..])
      case None => References(s[1..])
  }

  ghost predicate NoReference(s: string) {
    forall i :: 0 <= i <= |s| ==> ReferenceAt(s[i..]).None?
  }

  lemma {:induction false} NothingFoundMeansNoReference(s: string)
    ensures References(s) == [] <==> NoReference(s)
    decreases |s|
  {
    if s != "" {
      assert s[0..] == s;
      if ReferenceAt(s).None? {
        NothingFoundMeansNoReference(s[1..]);
        assert forall i :: 0 <= i <= |s| - 1 ==> s[1..][i..] == s[i + 1..];
        if References(s) == [] {
          forall i | 0 <= i <= |s| ensures ReferenceAt(s[i..]).None? {
            if i > 0 {
              assert s[i..] == s[1..][i - 1..];
            }
          }
        }
      }
    }
  }

  lemma {:induction false} SubstituteFixed(s: string, vars: Variables)
    requires References(s) == []
    ensures Substitute(s, vars) == s
    decreases |s|
  {
    if s != "" {
      SubstituteFixed(s[1..], vars);
    }
  }

  predicate DollarFree(s: string) {
    '$' !in s
  }

  /** Every `$` begins a reference to a bound variable. */
  ghost predicate OnlyBoundDollars(s: string, vars: Variables) {
    forall i :: 0 <= i < |s| && s[i] == '$' ==> ReferenceAt(s[i..]).Some? && ReferenceAt(s[i..]).value in vars
  }

  lemma OnlyBoundDollarsAfter(s: string, vars: Variables, k: nat)
    requires OnlyBoundDollars(s, vars) && k <= |s|
    ensures OnlyBoundDollars(s[k..], vars)
  {
    forall i | 0 <= i < |s[k..]| && s[k..][i] == '$'
      ensures ReferenceAt(s[k..][i..]).Some? && ReferenceAt(s[k..][i..]).value in vars
    {
      assert s[k..][i..] == s[k + i..];
    }
  }

  lemma {:induction false} BoundDollarsDisappear(s: string, vars: Variables)
    requires OnlyBoundDollars(s, vars) && forall name :: name in vars ==> DollarFree(vars[name])
    ensures DollarFree(Substitute(s, vars))
    decreases |s|
  {
    if s != "" {
      assert s[0..] == s;
      match ReferenceAt(s)
      case Some(name) =>
        OnlyBoundDollarsAfter(s, vars, |name| + 3);
        BoundDollarsDisappear(s[|name| + 3..], vars);
        assert s[0] == '$';
      case None =>
        OnlyBoundDollarsAfter(s, vars, 1);
        BoundDollarsDisappear(s[1..], vars);
    }
  }

  lemma {:induction false} DollarFreeHasNoReferences(s: string)
    requires DollarFree(s)
    ensures References(s) == []
    decreases |s|
  {
    if s != "" {
      DollarFreeHasNoReferences(s[1..]);
    }
  }

  // Arguments

  datatype Arg =
    | Text(s: string)
    | Binding(fromStep: string, path: string)  // ArgBinding
    | Dict(entries: map<string, Arg>)
    | Flag(b: bool)
    | Other(repr: string)                      // numbers, lists, null

  type Args = map<string, Arg>

  /** `_resolve_args` on one value. */
  function Resolve(a: Arg, vars: Variables): Arg {
    match a
    case Text(s) => Text(Substitute(s, vars))
    case Dict(entries) => Dict(map k | k in entries :: Resolve(entries[k], vars))
    case _ => a
  }

  /** `_collect_unresolved` on one value, as a set. */
  function Unresolved(a: Arg): set<string> {
    match a
    case Text(s) => set name | name in References(s)
    case Dict(entries) => set k, name | k in entries && name in Unresolved(entries[k]) :: name
    case _ => {}
  }

  /** No reference occurs in any text reached through nested dicts. */
  ghost predicate Closed(a: Arg) {
    match a
    case Text(s) => NoReference(s)
    case Dict(entries) => forall k :: k in entries ==> Closed(entries[k])
    case _ => true
  }

  lemma TextUnresolved(s: string)
    ensures Unresolved(Text(s)) == {} <==> References(s) == []
  {
    if References(s) != [] {
      assert References(s)[0] in Unresolved(Text(s));
    }
  }

  lemma {:induction false} NothingUnresolvedMeansClosed(a: Arg)
    ensures Unresolved(a) == {} <==> Closed(a)
  {
    match a
    case Text(s) =>
      NothingFoundMeansNoReference(s);
      TextUnresolved(s);
    case Dict(entries) =>
      forall k | k in entries ensures Unresolved(entries[k]) == {} <==> Closed(entries[k]) {
        NothingUnresolvedMeansClosed(entries[k]);
      }
      forall k, name | k in entries && name in Unresolved(entries[k]) ensures name in Unresolved(a) {
      }
    case _ =>
  }

  /** Resolving an argument without unresolved references again, under any variables, changes nothing. */
  lemma {:induction false} ResolveIsFixed(a: Arg, vars: Variables)
    requires Unresolved(a) == {}
    ensures Resolve(a, vars) == a
  {
    match a
    case Text(s) =>
      TextUnresolved(s);
      SubstituteFixed(s, vars);
    case Dict(entries) =>
      forall k | k in entries ensures Resolve(entries[k], vars) == entries[k] {
        assert forall name :: name in Unresolved(entries[k]) ==> name in Unresolved(a);
        ResolveIsFixed(entries[k], vars);
      }
    case _ =>
  }

  ghost predicate WellBound(a: Arg, vars: Variables) {
    match a
    case Text(s) => OnlyBoundDollars(s, vars)
    case Dict(entries) => forall k :: k in entries ==> WellBound(entries[k], vars)
    case _ => true
  }

  /** If every `$` begins a bound reference and all values are `$`-free, nothing is left unresolved. */
  lemma {:induction false} WellBoundResolves(a: Arg, vars: Variables)
    requires WellBound(a, vars) && forall name :: name in vars ==> DollarFree(vars[name])
    ensures Unresolved(Resolve(a, vars)) == {}
  {
    match a
    case Text(s) =>
      BoundDollarsDisappear(s, vars);
      DollarFreeHasNoReferences(Substitute(s, vars));
    case Dict(entries) =>
      forall k | k in entries ensures Unresolved(Resolve(entries[k], vars)) == {} {
        WellBoundResolves(entries[k], vars);
      }
    case _ =>
  }

  // Serialization of bindings

  /** `_serialize_args` on one value. */
  function Serialize(a: Arg): Arg {
    match a
    case Binding(fromStep, path) =>
        Dict(map["__binding__" := Flag(true), "from_step" := Text(fromStep), "path" := Text(path)])
    case Dict(entries) => Dict(map k | k in entries :: Serialize(entries[k]))
    case _ => a
  }

  /** The runner's `_is_binding`. */
  predicate IsBinding(a: Arg) {
    a.Dict? && "__binding__" in a.entries && a.entries["__binding__"] == Flag(true)
  }

  /** The runner takes a serialized argument for a binding if it was one, or was a dict that looks like one. */
  lemma SerializedBindings(a: Arg)
    ensures IsBinding(Serialize(a)) <==> a.Binding? || IsBinding(a)
  {
    if a.Dict? && "__binding__" in a.entries {
      assert Serialize(a).entries["__binding__"] == Serialize(a.entries["__binding__"]);
    }
  }

  /** No binding, nested dicts included, names its step or its path by a text with a reference. */
  ghost predicate BindingsClosed(a: Arg) {
    match a
    case Binding(fromStep, path) => NoReference(fromStep) && NoReference(path)
    case Dict(entries) => forall k :: k in entries ==> BindingsClosed(entries[k])
    case _ => true
  }

  /** Serializing turns the texts of a binding, which were not looked into before, into texts of a dict. */
  lemma {:induction false} SerializedClosedExactly(a: Arg)
    ensures Closed(Serialize(a)) <==> Closed(a) && BindingsClosed(a)
  {
    match a
    case Binding(fromStep, path) =>
      var entries := Serialize(a).entries;
      assert Closed(entries["from_step"]) <==> NoReference(fromStep);
      assert Closed(entries["path"]) <==> NoReference(path);
      assert forall k :: k in entries ==> k == "__binding__" || k == "from_step" || k == "path";
    case Dict(entries) =>
      var out := Serialize(a).entries;
      forall k | k in entries ensures Closed(out[k]) <==> Closed(entries[k]) && BindingsClosed(entries[k]) {
        SerializedClosedExactly(entries[k]);
      }
      assert Closed(Serialize(a)) <==> forall k :: k in entries ==> Closed(out[k]);
    case _ =>
  }

  lemma {:induction false} ResolvingKeepsBindings(a: Arg, vars: Variables)
    ensures BindingsClosed(Resolve(a, vars)) <==> BindingsClosed(a)
  {
    if a.Dict? {
      var out := Resolve(a, vars).entries;
      forall k | k in a.entries ensures BindingsClosed(out[k]) <==> BindingsClosed(a.entries[k]) {
        ResolvingKeepsBindings(a.entries[k], vars);
      }
      assert BindingsClosed(Resolve(a, vars)) <==> forall k :: k in a.entries ==> BindingsClosed(out[k]);
    }
  }

  /** Binding one name to the empty text shortens every text that refers to it, and lengthens none. */
  lemma {:induction false} ErasingShortens(s: string, name: string)
    ensures |Substitute(s, map[name := ""])| <= |s|
    ensures name in References(s) ==> |Substitute(s, map[name := ""])| < |s|
    decreases |s|
  {
    if s != "" {
      match ReferenceAt(s)
      case Some(found) => ErasingShortens(s[|found| + 3..], name);
      case None => ErasingShortens(s[1..], name);
    }
  }

  lemma {:induction false} ErasingChanges(a: Arg, name: string)
    requires name in Unresolved(a)
    ensures Resolve(a, map[name := ""]) != a
  {
    match a
    case Text(s) => ErasingShortens(s, name);
    case Dict(entries) =>
      var k :| k in entries && name in Unresolved(entries[k]);
      ErasingChanges(entries[k], name);
      assert Resolve(a, map[name := ""]).entries[k] != entries[k];
  }

  /** An argument withstands all variables exactly when no reference is left in it. */
  lemma FixedExactly(a: Arg)
    ensures (forall vars: Variables :: Resolve(a, vars) == a) <==> Closed(a)
  {
    NothingUnresolvedMeansClosed(a);
    if Closed(a) {
      forall vars: Variables ensures Resolve(a, vars) == a {
        ResolveIsFixed(a, vars);
      }
    } else {
      var name :| name in Unresolved(a);
      ErasingChanges(a, name);
    }
  }
}

/**
 * What the arguments of a compiled plan say: the texts of the templates, with each bound name replaced by its value,
 * the run-time one if there is one, and everything else as it was.
 */
module PipelineMeaning {
  import opened Graphs
  import opened PipelineCompiler
  import opened Templates
  import opened Wrappers

  // Texts cut into pieces

  predicate IsLetter(c: char) {
    'A' <= c <= 'Z' || 'a' <= c <= 'z' || c == '_'
  }

  /** A name as variables have it: a letter or underscore, then letters, underscores and digits. */
  predicate IsName(name: string) {
    name != "" && IsLetter(name[0]) && forall i :: 0 <= i < |name| ==> IsLetter(name[i]) || '0' <= name[i] <= '9'
  }

  /** One character of a text, or a reference to a variable. */
  datatype Piece = Character(c: char) | Variable(name: string)

  function Written(name: string): string {
    ['$', '{'] + name + ['}']
  }

  function TextOf(pieces: seq<Piece>): string {
    if pieces == [] then ""
    else (match pieces[0] case Character(c) => [c] case Variable(name) => Written(name)) + TextOf(pieces[1..])
  }

  /** No reference begins at the start of the text. */
  ghost predicate BeginsNoReference(s: string) {
    forall name :: IsName(name) ==> !(Written(name) <= s)
  }

  /** The text is cut into its references, left to right, and the characters between them. */
  ghost predicate WellCut(pieces: seq<Piece>) {
    pieces == [] ||
    (WellCut(pieces[1..]) &&
     match pieces[0]
     case Character(c) => BeginsNoReference([c] + TextOf(pieces[1..]))
     case Variable(name) => IsName(name))
  }

  /** The text with each name replaced by its run-time value, or else its declared one, or else kept. */
  function Filled(pieces: seq<Piece>, runtime: Variables, declared: Variables): string {
    if pieces == [] then ""
    else
      (match pieces[0]
       case Character(c) => [c]
       case Variable(name) =>
         if name in runtime then runtime[name] else if name in declared then declared[name] else Written(name))
      + Filled(pieces[1..], runtime, declared)
  }

  lemma ReferenceExactly(s: string, name: string)
    ensures ReferenceAt(s) == Some(name) <==> IsName(name) && Written(name) <= s
  {
    if ReferenceAt(s) == Some(name) {
      assert s[2..2 + |name|] == name;
      assert s[2] == name[0];
      assert Written(name) == s[..|name| + 3];
    }
    if IsName(name) && Written(name) <= s {
      var rest, n := s[2..], NameLength(s[2..]);
      assert s[..|name| + 3] == Written(name);
      assert forall i :: 0 <= i < |name| + 3 ==> s[i] == Written(name)[i];
      assert forall i :: 0 <= i < |name| ==> rest[i] == Written(name)[i + 2] == name[i];
      assert rest[|name|] == '}';
      assert n == |name|;
      assert s[2..2 + n] == name;
    }
  }

  lemma NoReferenceExactly(s: string)
    ensures ReferenceAt(s).None? <==> BeginsNoReference(s)
  {
    if ReferenceAt(s).Some? {
      ReferenceExactly(s, ReferenceAt(s).value);
    }
    forall name | IsName(name) && Written(name) <= s ensures ReferenceAt(s).Some? {
      ReferenceExactly(s, name);
    }
  }

  /** However long, a text resolved is the text with its references filled in. */
  lemma {:induction false} SubstituteFills(pieces: seq<Piece>, runtime: Variables, declared: Variables)
    requires WellCut(pieces)
    ensures Substitute(TextOf(pieces), declared + runtime) == Filled(pieces, runtime, declared)
  {
    if pieces != [] {
      var s, rest := TextOf(pieces), TextOf(pieces[1..]);
      SubstituteFills(pieces[1..], runtime, declared);
      match pieces[0]
      case Character(c) =>
        NoReferenceExactly(s);
        assert s[0] == c && s[1..] == rest;
      case Variable(name) =>
        ReferenceExactly(s, name);
        assert s[..|name| + 3] == Written(name) && s[|name| + 3..] == rest;
    }
  }

  /** Every text can be cut so. */
  lemma {:induction false} CutText(s: string) returns (pieces: seq<Piece>)
    ensures WellCut(pieces) && TextOf(pieces) == s
    decreases |s|
  {
    if s == "" {
      pieces := [];
    } else {
      match ReferenceAt(s)
      case None =>
        var rest := CutText(s[1..]);
        NoReferenceExactly(s);
        pieces := [Character(s[0])] + rest;
        assert pieces[1..] == rest && [s[0]] + s[1..] == s;
      case Some(name) =>
        var rest := CutText(s[|name| + 3..]);
        ReferenceExactly(s, name);
        pieces := [Variable(name)] + rest;
        assert pieces[1..] == rest && Written(name) + s[|name| + 3..] == s;
    }
  }

  // Arguments

  /** The argument `out` of a plan is what the template says, at every depth. */
  ghost predicate Says(a: Arg, out: Arg, runtime: Variables, declared: Variables) {
    match a
    case Text(s) =>
      out.Text? &&
      forall pieces :: WellCut(pieces) && TextOf(pieces) == s ==> out.s == Filled(pieces, runtime, declared)
    case Dict(entries) =>
      out.Dict? && out.entries.Keys == entries.Keys &&
      forall k :: k in entries ==> Says(entries[k], out.entries[k], runtime, declared)
    case Binding(fromStep, path) =>
      out == Dict(map["__binding__" := Flag(true), "from_step" := Text(fromStep), "path" := Text(path)])
    case _ => out == a
  }

  lemma {:induction false} ResolvingSays(a: Arg, runtime: Variables, declared: Variables)
    ensures Says(a, Serialize(Resolve(a, declared + runtime)), runtime, declared)
  {
    match a
    case Text(s) =>
      forall pieces | WellCut(pieces) && TextOf(pieces) == s
        ensures Substitute(s, declared + runtime) == Filled(pieces, runtime, declared)
      {
        SubstituteFills(pieces, runtime, declared);
      }
    case Dict(entries) =>
      var out := Serialize(Resolve(a, declared + runtime)).entries;
      forall k | k in entries ensures Says(entries[k], out[k], runtime, declared) {
        ResolvingSays(entries[k], runtime, declared);
      }
    case _ =>
  }

  /** Each todo of a compiled plan is its step: its id, its tool, and arguments that say what its template says. */
  lemma PlanSaysDefinition(d: Definition, runtime: Variables, order: seq<Step>, todos: seq<Todo>, i: nat)
    requires IsPlan(d, Merged(d, runtime), order, todos) && i < |order|
    ensures todos[i].id == order[i].id && todos[i].toolName == order[i].toolName
    ensures todos[i].args.Keys == order[i].template.Keys
    ensures forall key :: key in order[i].template ==>
              Says(order[i].template[key], todos[i].args[key], runtime, d.variables)
  {
    var s := order[i];
    forall key | key in s.template ensures Says(s.template[key], todos[i].args[key], runtime, d.variables) {
      ResolvingSays(s.template[key], runtime, d.variables);
    }
  }

  /** For a text, spelled out: cut in whatever way it can be cut, each name has its value. */
  lemma TextArgumentIsFilled(d: Definition, runtime: Variables, order: seq<Step>, todos: seq<Todo>, i: nat, key: string,
                             pieces: seq<Piece>)
    requires IsPlan(d, Merged(d, runtime), order, todos) && i < |order| && key in order[i].template
    requires WellCut(pieces) && order[i].template[key] == Text(TextOf(pieces))
    ensures key in todos[i].args && todos[i].args[key] == Text(Filled(pieces, runtime, d.variables))
  {
    PlanSaysDefinition(d, runtime, order, todos, i);
  }

  /**
   * A compiled plan has as many todos as the definition has steps, at least one and no more than allowed, with
   * distinct ids, allowed tools, and each dependency of a step among the todos before it.
   */
  lemma PlanKeepsLimits(d: Definition, allowed: Option<set<string>>, vars: Variables, order: seq<Step>,
                        todos: seq<Todo>)
    requires Compilable(d, allowed, vars) && IsPlan(d, vars, order, todos) && Distinct(IdsOf(order))
    ensures |todos| == |d.steps| && 0 < |todos| <= d.maxSteps
    ensures forall i, j :: 0 <= i < j < |todos| ==> todos[i].id != todos[j].id
    ensures forall i :: 0 <= i < |todos| && allowed.Some? ==> todos[i].toolName in allowed.value
    ensures forall i, dep :: 0 <= i < |todos| && dep in order[i].dependsOn ==>
              exists j :: 0 <= j < i && todos[j].id == dep
    ensures multiset(order) == multiset(d.steps)
  {
    assert |multiset(order)| == |multiset(d.steps)|;
    forall i, j | 0 <= i < j < |todos| ensures todos[i].id != todos[j].id {
      assert IdsOf(order)[i] != IdsOf(order)[j];
    }
    forall i | 0 <= i < |todos| && allowed.Some? ensures todos[i].toolName in allowed.value {
      SameSteps(d.steps, order, order[i]);
    }
    forall i, dep | 0 <= i < |todos| && dep in order[i].dependsOn ensures exists j :: 0 <= j < i && todos[j].id == dep {
      var j := DependencyComesFirst(d, order, i, dep);
      assert todos[j].id == dep;
    }
  }

  lemma DependencyComesFirst(d: Definition, order: seq<Step>, i: nat, dep: string) returns (j: nat)
    requires Ordered(d.steps, order) && Distinct(IdsOf(order)) && i < |order| && dep in order[i].dependsOn
    ensures j < i && order[j].id == dep
  {
    SameSteps(d.steps, order, order[i]);
    assert (dep, order[i].id) in DependencyEdges(d.steps);
    var a, b :| 0 <= a < b < |order| && IdsOf(order)[a] == dep && IdsOf(order)[b] == order[i].id;
    assert IdsOf(order)[i] == order[i].id;
    j := a;
  }
}

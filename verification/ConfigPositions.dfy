/** What the two walks visit, told by following a position (an index at each level) through
    the tree, and what they make of it, told line by line and character by character. */
module ConfigPositions {
  import opened ConfigAgreement
  import opened ConfigWalk
  import opened Wrappers

  /** The names joined by dots behind a prefix, without a dot behind an empty one. */
  function JoinNames(prefix: string, names: seq<string>): string
    decreases |names|
  {
    if |names| == 0 then prefix
    else JoinNames(if prefix == "" then names[0] else prefix + "." + names[0], names[1..])
  }

  lemma OneName(prefix: string, name: string)
    ensures JoinNames(prefix, [name]) == Join(prefix, name)
  {
    assert [name][1..] == [];
  }

  // ---- Export ----

  /** The leaf that a position leads to, through any pointers, and the names on the way: for
      each field its tag up to a comma. None if a field on the way has no tag, or an empty one
      or a dash there, or if there is no leaf. */
  function Leads(v: Value, at: seq<nat>): Option<(seq<string>, Value)>
    decreases v
  {
    if v.Ptr? then Leads(v.target, at)
    else if |at| == 0 then (if v.Struct? then None else Some(([], v)))
    else if v.Struct? && at[0] < |v.fields| then FieldLeads(v.fields[at[0]], at[1..])
    else None
  }

  function FieldLeads(f: Field, at: seq<nat>): Option<(seq<string>, Value)>
    decreases f
  {
    if f.tag == None || BeforeComma(f.tag.value) == "" || BeforeComma(f.tag.value) == "-" then None
    else
      var below := Leads(f.value, at);
      if below == None then None else Some(([BeforeComma(f.tag.value)] + below.value.0, below.value.1))
  }

  /** The visit is that of the leaf its position leads to: a scalar with its text, or a nil pointer. */
  predicate Shows(v: Visit, prefix: string, found: Option<(seq<string>, Value)>) {
    && found.Some?
    && v.path == JoinNames(prefix, found.value.0)
    && (found.value.1.Scalar? ==> v.text == found.value.1.text)
    && (found.value.1.NilPtr? ==> v.text == "<nil>")
  }

  lemma {:induction false} LeadsToLeaf(v: Value, at: seq<nat>)
    ensures Leads(v, at).Some? ==> Leads(v, at).value.1.Scalar? || Leads(v, at).value.1.NilPtr?
    ensures Leads(v, at) == Leads(Deref(v), at)
    decreases v
  {
    if v.Ptr? {
      LeadsToLeaf(v.target, at);
    } else if v.Struct? && |at| > 0 && at[0] < |v.fields| {
      LeadsToLeaf(v.fields[at[0]].value, at[1..]);
    }
  }

  lemma {:induction false} ExportFieldExactly(f: Field, at: seq<nat>, prefix: string, v: Visit)
    ensures v in ExportField(f, at, prefix) <==> at <= v.at && Shows(v, prefix, FieldLeads(f, v.at[|at|..]))
    decreases f, 0
  {
    var d := Deref(f.value);
    if at <= v.at {
      var rest := v.at[|at|..];
      LeadsToLeaf(f.value, rest);
      assert v.at == at + rest;
    }
    if !Skipped(f) {
      var path := Join(prefix, ExportName(f));
      if d.Struct? {
        ExportListExactly(d.fields, at, 0, path, v);
        if at <= v.at {
          BelowField(f, at, prefix, v);
          assert at < v.at ==> v.at[|at|..][1..] == v.at[|at| + 1..];
        }
      } else {
        OneName(prefix, ExportName(f));
        assert at <= v.at ==> (v.at == at <==> v.at[|at|..] == []);
      }
    }
  }

  lemma BelowField(f: Field, at: seq<nat>, prefix: string, v: Visit)
    requires at <= v.at && !Skipped(f) && Deref(f.value).Struct?
    ensures var fields, rest := Deref(f.value).fields, v.at[|at|..];
            Shows(v, prefix, FieldLeads(f, rest)) <==>
            |rest| > 0 && rest[0] < |fields| && Shows(v, Join(prefix, ExportName(f)), FieldLeads(fields[rest[0]], rest[1..]))
  {
    var rest := v.at[|at|..];
    LeadsToLeaf(f.value, rest);
    var below := Leads(f.value, rest);
    if below.Some? {
      assert ([ExportName(f)] + below.value.0)[1..] == below.value.0;
    }
  }

  lemma Deeper(at: seq<nat>, from: nat, position: seq<nat>)
    ensures at + [from] <= position <==> at < position && position[|at|] == from
    ensures at + [from] <= position ==> position[|at + [from]|..] == position[|at| + 1..]
  {
    if at < position && position[|at|] == from {
      assert position[..|at| + 1] == at + [from];
    }
    if at + [from] <= position {
      assert position[..|at|] == (at + [from])[..|at|] == at;
      assert position[|at|] == (at + [from])[|at|];
    }
  }

  lemma {:induction false} ExportListExactly(fs: seq<Field>, at: seq<nat>, from: nat, prefix: string, v: Visit)
    ensures v in ExportVisits(fs, at, from, prefix) <==>
              && at < v.at && from <= v.at[|at|] < from + |fs|
              && Shows(v, prefix, FieldLeads(fs[v.at[|at|] - from], v.at[|at| + 1..]))
    decreases fs, 1
  {
    if |fs| > 0 {
      ExportFieldExactly(fs[0], at + [from], prefix, v);
      ExportListExactly(fs[1..], at, from + 1, prefix, v);
      Deeper(at, from, v.at);
      hide Shows, FieldLeads, ExportField;
      assert v in ExportVisits(fs, at, from, prefix) <==>
        v in ExportField(fs[0], at + [from], prefix) || v in ExportVisits(fs[1..], at, from + 1, prefix);
    }
  }

  /** A visit is in the export if and only if its position leads to a leaf past fields that
      are not skipped, its path is the names on the way, and its text is what the leaf holds. */
  lemma ExportedExactly(fs: seq<Field>, v: Visit)
    ensures v in ExportVisits(fs, [], 0, "") <==> |v.at| > 0 && Shows(v, "", Leads(Struct(fs), v.at))
  {
    ExportListExactly(fs, [], 0, "", v);
  }

  // ---- Binding ----

  /** The field that a position leads to through structs alone, and the names on the way: each
      field's tag, or its Go name if it has none. */
  function Binds(fs: seq<Field>, at: seq<nat>): Option<(seq<string>, Field)>
    decreases fs
  {
    if |at| == 0 || at[0] >= |fs| then None else FieldBinds(fs[at[0]], at[1..])
  }

  function FieldBinds(f: Field, at: seq<nat>): Option<(seq<string>, Field)>
    decreases f
  {
    var name := if f.tag.Some? then f.tag.value else f.name;
    if f.value.Struct? then
      var below := Binds(f.value.fields, at);
      if below == None then None else Some(([name] + below.value.0, below.value.1))
    else if |at| == 0 then Some(([name], f))
    else None
  }

  predicate BoundAs(v: Visit, prefix: string, found: Option<(seq<string>, Field)>) {
    found.Some? && v.path == JoinNames(prefix, found.value.0) && v.text == Text(Deref(found.value.1.value))
  }

  lemma {:induction false} BindFieldExactly(f: Field, at: seq<nat>, prefix: string, v: Visit)
    ensures v in BindField(f, at, prefix) <==> at <= v.at && BoundAs(v, prefix, FieldBinds(f, v.at[|at|..]))
    decreases f, 0
  {
    if f.value.Struct? {
      BindListExactly(f.value.fields, at, 0, Join(prefix, BindName(f)), v);
      if at <= v.at {
        BindsBelow(f, at, prefix, v);
        hide BoundAs, FieldBinds, Join, BindName;
        assert at < v.at ==> v.at[|at|..][1..] == v.at[|at| + 1..];
      }
    } else {
      BindLeaf(f, at, prefix, v);
    }
  }

  lemma BindLeaf(f: Field, at: seq<nat>, prefix: string, v: Visit)
    requires !f.value.Struct?
    ensures v in BindField(f, at, prefix) <==> at <= v.at && BoundAs(v, prefix, FieldBinds(f, v.at[|at|..]))
  {
    OneName(prefix, BindName(f));
    assert at <= v.at ==> (v.at == at <==> v.at[|at|..] == []);
    hide JoinNames, Join;
  }

  lemma BindsBelow(f: Field, at: seq<nat>, prefix: string, v: Visit)
    requires at <= v.at && f.value.Struct?
    ensures var fields, rest := f.value.fields, v.at[|at|..];
            BoundAs(v, prefix, FieldBinds(f, rest)) <==>
            |rest| > 0 && rest[0] < |fields| && BoundAs(v, Join(prefix, BindName(f)), FieldBinds(fields[rest[0]], rest[1..]))
  {
    var below := Binds(f.value.fields, v.at[|at|..]);
    if below.Some? {
      assert ([BindName(f)] + below.value.0)[1..] == below.value.0;
    }
  }

  lemma {:induction false} BindListExactly(fs: seq<Field>, at: seq<nat>, from: nat, prefix: string, v: Visit)
    ensures v in BindVisits(fs, at, from, prefix) <==>
              && at < v.at && from <= v.at[|at|] < from + |fs|
              && BoundAs(v, prefix, FieldBinds(fs[v.at[|at|] - from], v.at[|at| + 1..]))
    decreases fs, 1
  {
    if |fs| > 0 {
      BindFieldExactly(fs[0], at + [from], prefix, v);
      BindListExactly(fs[1..], at, from + 1, prefix, v);
      Deeper(at, from, v.at);
      hide BoundAs, FieldBinds, BindField;
      assert v in BindVisits(fs, at, from, prefix) <==>
        v in BindField(fs[0], at + [from], prefix) || v in BindVisits(fs[1..], at, from + 1, prefix);
    }
  }

  /** A position is bound under a path if and only if it leads to a leaf field through structs
      and the path is the names on the way. */
  lemma BoundExactly(fs: seq<Field>, at: seq<nat>, path: string)
    ensures (exists text :: Visit(at, path, text) in BindVisits(fs, [], 0, "")) <==>
              Binds(fs, at).Some? && path == JoinNames("", Binds(fs, at).value.0)
  {
    forall text {
      BindListExactly(fs, [], 0, "", Visit(at, path, text));
    }
    if Binds(fs, at).Some? && path == JoinNames("", Binds(fs, at).value.0) {
      assert Visit(at, path, Text(Deref(Binds(fs, at).value.1.value))) in BindVisits(fs, [], 0, "");
    }
  }

  // ---- Order ----

  /** Depth first: at the first level where the positions differ, the smaller index comes first. */
  ghost predicate Precedes(a: seq<nat>, b: seq<nat>) {
    exists k | 0 <= k < |a| && k < |b| :: a[..k] == b[..k] && a[k] < b[k]
  }

  ghost predicate InOrder(vs: seq<Visit>) {
    forall i, j | 0 <= i < j < |vs| :: Precedes(vs[i].at, vs[j].at)
  }

  lemma PartsInOrder(a: seq<Visit>, b: seq<Visit>, at: seq<nat>, from: nat)
    requires InOrder(a) && InOrder(b)
    requires forall v | v in a :: at + [from] <= v.at
    requires forall v | v in b :: at < v.at && from < v.at[|at|]
    ensures InOrder(a + b)
  {
    var vs := a + b;
    forall i, j | 0 <= i < j < |vs| ensures Precedes(vs[i].at, vs[j].at) {
      if i < |a| <= j {
        assert vs[i] in a && vs[j] in b;
        Deeper(at, from, vs[i].at);
        var p, q := vs[i].at, vs[j].at;
        assert p[..|at|] == at == q[..|at|];
      } else if j < |a| {
        assert Precedes(a[i].at, a[j].at);
      } else {
        assert Precedes(b[i - |a|].at, b[j - |a|].at);
      }
    }
  }

  lemma {:induction false} ExportInOrder(fs: seq<Field>, at: seq<nat>, from: nat, prefix: string)
    ensures InOrder(ExportVisits(fs, at, from, prefix))
    decreases fs
  {
    if |fs| > 0 {
      ExportFieldInOrder(fs[0], at + [from], prefix);
      ExportInOrder(fs[1..], at, from + 1, prefix);
      ExportFieldBelow(fs[0], at + [from], prefix);
      ExportBelow(fs[1..], at, from + 1, prefix);
      PartsInOrder(ExportField(fs[0], at + [from], prefix), ExportVisits(fs[1..], at, from + 1, prefix), at, from);
    }
  }

  lemma {:induction false} ExportFieldInOrder(f: Field, at: seq<nat>, prefix: string)
    ensures InOrder(ExportField(f, at, prefix))
    decreases f
  {
    if !Skipped(f) && Deref(f.value).Struct? {
      ExportInOrder(Deref(f.value).fields, at, 0, Join(prefix, ExportName(f)));
    }
  }

  lemma {:induction false} BindInOrder(fs: seq<Field>, at: seq<nat>, from: nat, prefix: string)
    ensures InOrder(BindVisits(fs, at, from, prefix))
    decreases fs
  {
    if |fs| > 0 {
      BindFieldInOrder(fs[0], at + [from], prefix);
      BindInOrder(fs[1..], at, from + 1, prefix);
      BindFieldBelow(fs[0], at + [from], prefix);
      BindBelow(fs[1..], at, from + 1, prefix);
      PartsInOrder(BindField(fs[0], at + [from], prefix), BindVisits(fs[1..], at, from + 1, prefix), at, from);
    }
  }

  lemma {:induction false} BindFieldInOrder(f: Field, at: seq<nat>, prefix: string)
    ensures InOrder(BindField(f, at, prefix))
    decreases f
  {
    if f.value.Struct? {
      BindInOrder(f.value.fields, at, 0, Join(prefix, BindName(f)));
    }
  }

  // ---- Characters and lines ----

  /** A variable is the prefix and then the path, character by character: a dot becomes an
      underscore, a lower-case letter its upper-case one, and nothing else changes. */
  lemma VariableInCharacters(path: string)
    ensures var name := EnvName(path);
            && |name| == 9 + |path| && name[..9] == "LOGTRACE_"
            && forall i | 0 <= i < |path| ::
                 && (path[i] == '.' ==> name[9 + i] == '_')
                 && ('a' <= path[i] <= 'z' ==> name[9 + i] as int == path[i] as int - 32)
                 && (path[i] != '.' && !('a' <= path[i] <= 'z') ==> name[9 + i] == path[i])
  {
    assert |ENV_PREFIX| == 9;
    assert forall i | 0 <= i < |path| :: EnvName(path)[9 + i] == EnvKey(path)[i] == EnvChar(path[i]);
  }

  function Concat(texts: seq<string>): string {
    if |texts| == 0 then "" else Concat(texts[..|texts| - 1]) + texts[|texts| - 1]
  }

  function LinesOf(vs: seq<Visit>): seq<string> {
    seq(|vs|, i requires 0 <= i < |vs| => EnvName(vs[i].path) + "=" + vs[i].text + "\n")
  }

  lemma {:induction false} LinesAreConcat(vs: seq<Visit>)
    ensures Lines(vs) == Concat(LinesOf(vs))
  {
    hide EnvName;
    if |vs| > 0 {
      LinesAreConcat(vs[..|vs| - 1]);
      assert LinesOf(vs)[..|vs| - 1] == LinesOf(vs[..|vs| - 1]);
    }
  }

  /** The exported file of a struct: one line for each visit, in position order, made of the
      variable of its path, an equals sign and the text of the leaf at its position. */
  lemma ExportedFile(fs: seq<Field>)
    ensures var visits := ExportVisits(fs, [], 0, "");
            && Exported(Struct(fs), [], "") == Concat(LinesOf(visits))
            && InOrder(visits)
            && forall i | 0 <= i < |visits| :: |visits[i].at| > 0 && Shows(visits[i], "", Leads(Struct(fs), visits[i].at))
  {
    var visits := ExportVisits(fs, [], 0, "");
    LinesAreConcat(visits);
    ExportInOrder(fs, [], 0, "");
    forall i | 0 <= i < |visits| ensures |visits[i].at| > 0 && Shows(visits[i], "", Leads(Struct(fs), visits[i].at)) {
      assert visits[i] in visits;
      ExportedExactly(fs, visits[i]);
    }
  }

  /** For a clean tree each bound variable gets a line with the value of its own field. */
  lemma CleanFileHoldsValues(fs: seq<Field>)
    requires Clean(fs)
    ensures var visits := BindVisits(fs, [], 0, "");
            && Exported(Ptr(Struct(fs)), [], "") == Concat(LinesOf(visits))
            && forall i | 0 <= i < |visits| ::
                 && Bindings(visits)[i].1 == EnvName(visits[i].path)
                 && Shows(visits[i], "", Leads(Struct(fs), visits[i].at))
                 && LinesOf(visits)[i] == Bindings(visits)[i].1 + "=" + visits[i].text + "\n"
  {
    WalksAgreeExactly(fs, [], 0, "");
    CleanTreesAgree(fs);
    ExportedFile(fs);
    LinesAreConcat(BindVisits(fs, [], 0, ""));
  }
}

/** The two walks over the configuration tree: the one that exports environment variables
    and the one that binds them. They are written differently; this module says exactly when
    they agree. */
module ConfigWalk {
  import opened Wrappers

  /** A Go value as reflection shows it. A scalar carries its printed form. */
  datatype Value =
    | Scalar(text: string)
    | Struct(fields: seq<Field>)
    | NilPtr
    | Ptr(target: Value)

  /** A struct field; `tag` is its mapstructure tag, if it has one. */
  datatype Field = Field(name: string, tag: Option<string>, value: Value)

  const ENV_PREFIX := "LOGTRACE_"

  // ---- Names ----

  /** The part of a tag before its first comma. */
  function BeforeComma(tag: string): string {
    if |tag| == 0 || tag[0] == ',' then "" else [tag[0]] + BeforeComma(tag[1..])
  }

  function ExportName(f: Field): string {
    if f.tag.Some? then BeforeComma(f.tag.value) else ""
  }

  predicate Skipped(f: Field) {
    ExportName(f) == "" || ExportName(f) == "-"
  }

  function BindName(f: Field): string {
    if f.tag.Some? then f.tag.value else f.name
  }

  function Join(prefix: string, name: string): string {
    if prefix == "" then name else prefix + "." + name
  }

  function EnvChar(c: char): char {
    if c == '.' then '_' else if 'a' <= c <= 'z' then c - 'a' + 'A' else c
  }

  function EnvKey(path: string): string {
    seq(|path|, i requires 0 <= i < |path| => EnvChar(path[i]))
  }

  function Deref(v: Value): (d: Value)
    ensures !d.Ptr? && (d == v || (v decreases to d))
  {
    if v.Ptr? then Deref(v.target) else v
  }

  // ---- What the walks visit ----

  /** A leaf reached by a walk: where the field stands (its index at each level), the dotted
      path the walk gives it, and its printed value. */
  datatype Visit = Visit(at: seq<nat>, path: string, text: string)

  function Text(v: Value): string {
    if v.Scalar? then v.text else "<nil>"
  }

  function ExportVisits(fs: seq<Field>, at: seq<nat>, from: nat, prefix: string): seq<Visit>
    decreases fs
  {
    if |fs| == 0 then []
    else ExportField(fs[0], at + [from], prefix) + ExportVisits(fs[1..], at, from + 1, prefix)
  }

  function ExportField(f: Field, at: seq<nat>, prefix: string): seq<Visit>
    decreases f
  {
    if Skipped(f) then []
    else
      var path := Join(prefix, ExportName(f));
      var v := Deref(f.value);
      if v.Struct? then ExportVisits(v.fields, at, 0, path) else [Visit(at, path, Text(v))]
  }

  function BindVisits(fs: seq<Field>, at: seq<nat>, from: nat, prefix: string): seq<Visit>
    decreases fs
  {
    if |fs| == 0 then []
    else BindField(fs[0], at + [from], prefix) + BindVisits(fs[1..], at, from + 1, prefix)
  }

  function BindField(f: Field, at: seq<nat>, prefix: string): seq<Visit>
    decreases f
  {
    var path := Join(prefix, BindName(f));
    if f.value.Struct? then BindVisits(f.value.fields, at, 0, path)
    else [Visit(at, path, Text(Deref(f.value)))]
  }

  lemma {:induction false} ExportExtend(fs: seq<Field>, at: seq<nat>, from: nat, prefix: string, k: nat)
    requires k < |fs|
    ensures ExportVisits(fs[..k + 1], at, from, prefix)
         == ExportVisits(fs[..k], at, from, prefix) + ExportField(fs[k], at + [from + k], prefix)
    decreases k
  {
    hide ExportField;
    var first := ExportField(fs[0], at + [from], prefix);
    if k == 0 {
      assert fs[..1][1..] == [];
    } else {
      ExportExtend(fs[1..], at, from + 1, prefix, k - 1);
      assert fs[..k + 1][1..] == fs[1..][..k] && fs[..k][1..] == fs[1..][..k - 1];
    }
  }

  lemma {:induction false} BindExtend(fs: seq<Field>, at: seq<nat>, from: nat, prefix: string, k: nat)
    requires k < |fs|
    ensures BindVisits(fs[..k + 1], at, from, prefix)
         == BindVisits(fs[..k], at, from, prefix) + BindField(fs[k], at + [from + k], prefix)
    decreases k
  {
    if k == 0 {
      assert fs[..1][1..] == [];
    } else {
      BindExtend(fs[1..], at, from + 1, prefix, k - 1);
      assert fs[..k + 1][1..] == fs[1..][..k] && fs[..k][1..] == fs[1..][..k - 1];
    }
  }

  // ---- The exporter ----

  function EnvName(path: string): string {
    ENV_PREFIX + EnvKey(path)
  }

  function Line(v: Visit): string {
    EnvName(v.path) + "=" + v.text + "\n"
  }

  function Lines(vs: seq<Visit>): string {
    if |vs| == 0 then "" else Lines(vs[..|vs| - 1]) + Line(vs[|vs| - 1])
  }

  lemma {:induction false} LinesConcat(a: seq<Visit>, b: seq<Visit>)
    ensures Lines(a + b) == Lines(a) + Lines(b)
  {
    hide Line, EnvName, EnvKey;
    if |b| == 0 {
      assert a + b == a;
    } else {
      LinesConcat(a, b[..|b| - 1]);
      assert (a + b)[..|a + b| - 1] == a + b[..|b| - 1];
    }
  }

  class EnvFile {
    var text: string

    constructor ()
      ensures text == ""
    {
      text := "";
    }

    /** Writes one line for each leaf below a value that is a struct behind any number of
        pointers, and nothing for any other value. */
    method WalkStruct(value: Value, prefix: string, ghost at: seq<nat>)
      modifies this
      ensures text == old(text) + Exported(value, at, prefix)
      decreases value
    {
      hide ExportVisits, ExportField, Exported, Lines, EnvName, EnvKey, Text;
      var v := value;
      while v.Ptr?
        invariant Deref(v) == Deref(value) && (v == value || (value decreases to v))
        decreases v
      {
        v := v.target;
      }
      ExportedCases(value, at, prefix);
      if !v.Struct? {
        return;
      }
      for i := 0 to |v.fields|
        invariant text == old(text) + Lines(ExportVisits(v.fields[..i], at, 0, prefix))
      {
        var field := v.fields[i];
        ghost var more := Lines(ExportField(field, at + [i], prefix));
        LinesExtend(v.fields, at, prefix, i, old(text));
        ExportCases(field, at + [i], prefix);
        var tagName := ExportName(field);
        if tagName == "" || tagName == "-" {
          assert text == text + more;
          continue;
        }
        var path := tagName;
        if prefix != "" {
          path := prefix + "." + tagName;
        }
        var fv := field.value;
        while fv.Ptr?
          invariant Deref(fv) == Deref(field.value) && (fv == field.value || (field.value decreases to fv))
          decreases fv
        {
          fv := fv.target;
        }
        if fv.Struct? {
          WalkStruct(fv, path, at + [i]);
        } else {
          text := text + (EnvName(path) + "=" + Text(fv) + "\n");
        }
      }
    }
  }

  function Exported(value: Value, at: seq<nat>, prefix: string): string {
    if Deref(value).Struct? then Lines(ExportVisits(Deref(value).fields, at, 0, prefix)) else ""
  }

  lemma ExportedCases(value: Value, at: seq<nat>, prefix: string)
    ensures var v := Deref(value);
            Exported(value, at, prefix) ==
            if v.Struct? then Lines(ExportVisits(v.fields[..|v.fields|], at, 0, prefix)) else ""
    ensures Deref(value).Struct? ==> Lines(ExportVisits(Deref(value).fields[..0], at, 0, prefix)) == ""
  {
    if Deref(value).Struct? {
      assert Deref(value).fields[..|Deref(value).fields|] == Deref(value).fields;
    }
  }

  lemma LinesExtend(fs: seq<Field>, at: seq<nat>, prefix: string, k: nat, before: string)
    requires k < |fs|
    ensures before + Lines(ExportVisits(fs[..k + 1], at, 0, prefix))
         == before + Lines(ExportVisits(fs[..k], at, 0, prefix)) + Lines(ExportField(fs[k], at + [k], prefix))
  {
    hide *;
    ExportExtend(fs, at, 0, prefix, k);
    LinesConcat(ExportVisits(fs[..k], at, 0, prefix), ExportField(fs[k], at + [k], prefix));
  }

  /** The three things that can come of a field: nothing, what lies below it, or one line. */
  lemma ExportCases(f: Field, at: seq<nat>, prefix: string)
    ensures var path, v := Join(prefix, ExportName(f)), Deref(f.value);
            Lines(ExportField(f, at, prefix)) ==
            if Skipped(f) then ""
            else if v.Struct? then Exported(v, at, path)
            else EnvName(path) + "=" + Text(v) + "\n"
  {
    var one := [Visit(at, Join(prefix, ExportName(f)), Text(Deref(f.value)))];
    assert one[..0] == [];
  }

  // ---- The binder ----

  /** A BindEnv call: the configuration path and the variable it is bound to. */
  function Binding(v: Visit): (string, string) {
    (v.path, EnvName(v.path))
  }

  function Bindings(vs: seq<Visit>): seq<(string, string)> {
    seq(|vs|, i requires 0 <= i < |vs| => Binding(vs[i]))
  }

  /** One pointer followed, as far as BindEnvs goes. */
  function Pointee(v: Value): Value {
    if v.Ptr? then v.target else v
  }

  class Viper {
    var bindings: seq<(string, string)>   // BindEnv calls, oldest first

    constructor ()
      ensures bindings == []
    {
      bindings := [];
    }

    /** Binds one variable for each leaf below a struct or a pointer to one. Any other value
        makes reflection panic. */
    method BindEnvs(prefix: string, value: Value, ghost at: seq<nat>)
      requires value.Struct? || (value.Ptr? && value.target.Struct?)
      modifies this
      ensures bindings == old(bindings) + Bindings(BindVisits(Pointee(value).fields, at, 0, prefix))
      decreases value
    {
      hide BindVisits, BindField, EnvName, EnvKey;
      var v := Pointee(value);
      BindStart(v.fields, at, prefix);
      for i := 0 to |v.fields|
        invariant bindings == old(bindings) + Bindings(BindVisits(v.fields[..i], at, 0, prefix))
      {
        var field := v.fields[i];
        BindExtend(v.fields, at, 0, prefix, i);
        BindCases(field, at + [i], prefix);
        var name := field.name;
        if field.tag.Some? {
          name := field.tag.value;
        }
        var path := name;
        if prefix != "" {
          path := prefix + "." + name;
        }
        if field.value.Struct? {
          BindEnvs(path, field.value, at + [i]);
        } else {
          bindings := bindings + [(path, EnvName(path))];
        }
      }
    }
  }

  lemma BindStart(fs: seq<Field>, at: seq<nat>, prefix: string)
    ensures BindVisits(fs[..0], at, 0, prefix) == [] && fs[..|fs|] == fs
  {
  }

  lemma BindCases(f: Field, at: seq<nat>, prefix: string)
    ensures var path := Join(prefix, BindName(f));
            BindField(f, at, prefix) ==
            if f.value.Struct? then BindVisits(f.value.fields, at, 0, path) else [Visit(at, path, Text(Deref(f.value)))]
  {
  }
}

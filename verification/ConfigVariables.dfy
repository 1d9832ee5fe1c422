/** When distinct leaves get distinct environment variables: a dot between two names and an
    underscore in a name become the same character, and case is lost. */
module ConfigVariables {
  import opened ConfigPaths
  import opened ConfigWalk
  import opened Wrappers

  ghost predicate DistinctVariables(vs: seq<Visit>) {
    forall i, j | 0 <= i < j < |vs| :: EnvName(vs[i].path) != EnvName(vs[j].path)
  }

  lemma DistinctKeys(vs: seq<Visit>)
    ensures DistinctVariables(vs) <==> Distinct(Spelled(Variable, vs))
  {
    hide EnvKey;
    forall i, j | 0 <= i < |vs| && 0 <= j < |vs|
      ensures EnvName(vs[i].path) == EnvName(vs[j].path) <==> Spelled(Variable, vs)[i] == Spelled(Variable, vs)[j]
    {
      assert EnvName(vs[i].path)[|ENV_PREFIX|..] == EnvKey(vs[i].path);
      assert EnvName(vs[j].path)[|ENV_PREFIX|..] == EnvKey(vs[j].path);
    }
  }

  /** Names are not empty and contain no dot, and no two siblings share one. */
  predicate WellNamed(fs: seq<Field>)
    decreases fs
  {
    |fs| > 0 ==>
      && BindName(fs[0]) != "" && '.' !in BindName(fs[0])
      && (forall k | 1 <= k < |fs| :: BindName(fs[k]) != BindName(fs[0]))
      && (fs[0].value.Struct? ==> WellNamed(fs[0].value.fields))
      && WellNamed(fs[1..])
  }

  lemma {:induction false} WellNamedMeans(fs: seq<Field>)
    requires WellNamed(fs)
    ensures Undotted(fs) && RootNamed(fs)
    ensures forall k | 0 <= k < |fs| :: BindName(fs[k]) != "" && '.' !in BindName(fs[k])
    ensures forall k | 0 <= k < |fs| && fs[k].value.Struct? :: WellNamed(fs[k].value.fields)
    ensures forall i, j | 0 <= i < j < |fs| :: BindName(fs[i]) != BindName(fs[j])
    decreases fs
  {
    if |fs| > 0 {
      WellNamedMeans(fs[1..]);
      assert forall k | 1 <= k < |fs| :: fs[k] == fs[1..][k - 1];
      if fs[0].value.Struct? {
        WellNamedMeans(fs[0].value.fields);
      }
    }
  }

  // ---- A condition on sibling names ----

  /** The variables of the field start with this text after what comes from its parents; for
      a leaf this is all. */
  function Key(f: Field): string {
    Start(Variable, f, "")
  }

  /** The two names alone keep the variables below them apart: leaves have different keys,
      no leaf's key continues the key of a struct, and no struct's key that of another. */
  predicate NamesApart(f: Field, g: Field) {
    if !f.value.Struct? && !g.value.Struct? then Key(f) != Key(g)
    else if !g.value.Struct? then !(Key(f) < Key(g))
    else if !f.value.Struct? then !(Key(g) < Key(f))
    else !(Key(f) <= Key(g)) && !(Key(g) <= Key(f))
  }

  predicate SiblingsApart(fs: seq<Field>) {
    forall i, j | 0 <= i < j < |fs| :: NamesApart(fs[i], fs[j])
  }

  /** Sibling names are apart at every level. */
  predicate AllApart(fs: seq<Field>)
    decreases fs
  {
    |fs| > 0 ==>
      && (forall k | 1 <= k < |fs| :: NamesApart(fs[0], fs[k]))
      && (fs[0].value.Struct? ==> AllApart(fs[0].value.fields))
      && AllApart(fs[1..])
  }

  /** Something below a struct makes its texts longer than its own. */
  lemma OverlapIsLonger(f: Field, g: Field)
    requires f.value.Struct? && !g.value.Struct? && WellNamed(f.value.fields)
    requires Overlap(Variable, "", f, "", g) || Overlap(Variable, "", g, "", f)
    ensures Key(f) < Key(g)
  {
    var s, t := Key(f), Key(g);
    var fs := f.value.fields;
    WellNamedMeans(fs);
    assert s <= t;
    if k :| 0 <= k < |fs| && (Overlap(Variable, s, fs[k], "", g) || Overlap(Variable, "", g, s, fs[k])) {
      assert |s| < |Start(Variable, fs[k], s)| <= |t|;
    }
  }

  lemma ApartNoOverlap(f: Field, g: Field)
    requires f.value.Struct? ==> WellNamed(f.value.fields)
    requires g.value.Struct? ==> WellNamed(g.value.fields)
    requires NamesApart(f, g)
    ensures !Overlap(Variable, "", f, "", g)
  {
    if Overlap(Variable, "", f, "", g) {
      if f.value.Struct? && !g.value.Struct? {
        OverlapIsLonger(f, g);
      } else if g.value.Struct? && !f.value.Struct? {
        OverlapIsLonger(g, f);
      }
    }
  }

  lemma {:induction false} AllApartNoOverlap(fs: seq<Field>)
    requires WellNamed(fs) && AllApart(fs)
    ensures NoOverlap(Variable, fs)
    decreases fs
  {
    if |fs| > 0 {
      WellNamedMeans(fs);
      AllApartNoOverlap(fs[1..]);
      if fs[0].value.Struct? {
        AllApartNoOverlap(fs[0].value.fields);
      }
      forall k | 1 <= k < |fs| ensures !Overlap(Variable, "", fs[0], "", fs[k]) {
        ApartNoOverlap(fs[0], fs[k]);
      }
    }
  }

  /** Names that are apart at every level give distinct leaves distinct variables. */
  lemma VariablesDistinct(fs: seq<Field>, at: seq<nat>, from: nat, prefix: string)
    requires WellNamed(fs) && AllApart(fs)
    ensures DistinctVariables(BindVisits(fs, at, from, prefix))
  {
    DistinctKeys(BindVisits(fs, at, from, prefix));
    TextsDistinctExactly(Variable, fs, at, from, prefix);
    WellNamedMeans(fs);
    NothingHoisted(fs);
    AllApartNoOverlap(fs);
  }

  /** For every well-named tree: distinct leaves get distinct variables if and only if no two
      siblings overlap in the variables' spelling. */
  lemma VariablesDistinctExactly(fs: seq<Field>, at: seq<nat>, from: nat, prefix: string)
    requires WellNamed(fs)
    ensures DistinctVariables(BindVisits(fs, at, from, prefix)) <==> NoOverlap(Variable, fs)
  {
    DistinctKeys(BindVisits(fs, at, from, prefix));
    TextsDistinctExactly(Variable, fs, at, from, prefix);
    WellNamedMeans(fs);
    NothingHoisted(fs);
  }

  // ---- The condition is exact on the names ----

  /** The same names of leaves and structs at this level; what the structs hold may differ. */
  predicate SameNames(fs: seq<Field>, gs: seq<Field>) {
    && |fs| == |gs|
    && forall k | 0 <= k < |fs| :: BindName(fs[k]) == BindName(gs[k]) && fs[k].value.Struct? == gs[k].value.Struct?
  }

  /** Sibling names are apart at every level below this one. */
  predicate InsidesApart(fs: seq<Field>) {
    forall k | 0 <= k < |fs| && fs[k].value.Struct? :: AllApart(fs[k].value.fields)
  }

  lemma {:induction false} ApartAtEveryLevel(fs: seq<Field>)
    ensures AllApart(fs) <==> SiblingsApart(fs) && InsidesApart(fs)
    decreases |fs|
  {
    if |fs| > 0 {
      var rest := fs[1..];
      ApartAtEveryLevel(rest);
      hide NamesApart;
      assert forall k | 1 <= k < |fs| :: fs[k] == rest[k - 1];
      if AllApart(fs) {
        forall i, j | 0 <= i < j < |fs| ensures NamesApart(fs[i], fs[j]) {
          if i > 0 {
            assert NamesApart(rest[i - 1], rest[j - 1]);
          }
        }
      }
      if SiblingsApart(fs) && InsidesApart(fs) {
        assert forall i, j | 0 <= i < j < |rest| :: rest[i] == fs[i + 1] && rest[j] == fs[j + 1];
      }
    }
  }

  /** A struct that holds one leaf. */
  function Only(name: string): Value {
    Struct([Field("", Some(name), Scalar(""))])
  }

  /** The names of one level, with one leaf in each struct. */
  function Filled(fs: seq<Field>, i: nat, s: string, j: nat, t: string): seq<Field> {
    seq(|fs|, k requires 0 <= k < |fs| =>
      if fs[k].value.Struct? then fs[k].(value := Only(if k == i then s else if k == j then t else "x")) else fs[k])
  }

  lemma {:induction false} WellNamedIf(fs: seq<Field>)
    requires forall k | 0 <= k < |fs| :: BindName(fs[k]) != "" && '.' !in BindName(fs[k])
    requires forall i, j | 0 <= i < j < |fs| :: BindName(fs[i]) != BindName(fs[j])
    requires forall k | 0 <= k < |fs| && fs[k].value.Struct? :: WellNamed(fs[k].value.fields)
    ensures WellNamed(fs)
  {
    if |fs| > 0 {
      WellNamedIf(fs[1..]);
    }
  }

  lemma OnlyWell(name: string)
    requires name != "" && '.' !in name
    ensures WellNamed(Only(name).fields) && AllApart(Only(name).fields)
  {
    var fs := Only(name).fields;
    assert fs[1..] == [];
  }

  lemma FilledWell(fs: seq<Field>, i: nat, s: string, j: nat, t: string)
    requires WellNamed(fs) && s != "" && '.' !in s && t != "" && '.' !in t
    ensures var gs := Filled(fs, i, s, j, t);
            SameNames(fs, gs) && WellNamed(gs) && InsidesApart(gs)
  {
    var gs := Filled(fs, i, s, j, t);
    WellNamedMeans(fs);
    OnlyWell(s);
    OnlyWell(t);
    OnlyWell("x");
    WellNamedIf(gs);
  }

  lemma OnlyText(f: Field, s: string)
    requires f.value == Only(s) && BindName(f) != ""
    ensures FieldTexts(Variable, f, "") == [Key(f) + EnvKey(s)]
  {
    var inner := f.value.fields;
    FieldTextsStart(Variable, f, "");
    assert inner[1..] == [] && BindName(inner[0]) == s;
    assert FieldTexts(Variable, inner[0], Key(f)) == [Key(f) + EnvKey(s)];
    assert ListTexts(Variable, inner, Key(f)) == FieldTexts(Variable, inner[0], Key(f)) + ListTexts(Variable, inner[1..], Key(f));
  }

  /** What to put into the first struct so that its variable continues the key of the second field. */
  function Continuation(f: Field, g: Field): string
    requires f.value.Struct? && (if g.value.Struct? then Key(f) <= Key(g) else Key(f) < Key(g))
  {
    var n := BindName(g);
    if !g.value.Struct? then n[|Key(f)|..]
    else if Key(f) == Key(g) then "x"
    else n[|Key(f)|..] + "_x"
  }

  lemma KeySuffix(k: string, n: string)
    requires k <= EnvKey(n)
    ensures |k| <= |n| && EnvKey(n) == k + EnvKey(n[|k|..])
  {
  }

  lemma KeyOf(f: Field)
    ensures Key(f) == EnvKey(BindName(f)) + (if f.value.Struct? then "_" else "")
    ensures |Key(f)| == |BindName(f)| + (if f.value.Struct? then 1 else 0)
  {
  }

  lemma ShorterKey(f: Field, g: Field)
    requires f.value.Struct? && g.value.Struct? && Key(f) < Key(g)
    ensures Key(f) <= EnvKey(BindName(g))
  {
    KeyOf(g);
    assert Key(f) == Key(g)[..|Key(f)|] == EnvKey(BindName(g))[..|Key(f)|];
  }

  lemma ContinuationFits(f: Field, g: Field)
    requires f.value.Struct? && (if g.value.Struct? then Key(f) <= Key(g) else Key(f) < Key(g))
    requires '.' !in BindName(g)
    ensures var s := Continuation(f, g);
            && s != "" && '.' !in s
            && Key(f) + EnvKey(s) == Key(g) + (if g.value.Struct? then "X" else "")
  {
    hide EnvKey, Key;
    var n := BindName(g);
    KeyOf(g);
    CapitalX();
    if g.value.Struct? && Key(f) == Key(g) {
    } else {
      if g.value.Struct? {
        ShorterKey(f, g);
      }
      KeySuffix(Key(f), n);
      SpellConcat(Variable, n[|Key(f)|..], "_x");
    }
  }

  lemma CapitalX()
    ensures EnvKey("x") == "X" && EnvKey("_x") == "_X" && EnvKey("_") == "_"
  {
  }

  /** The field with one leaf in it, if it is a struct. */
  function Holding(f: Field, s: string): Field {
    if f.value.Struct? then f.(value := Only(s)) else f
  }

  lemma HoldingText(f: Field, s: string)
    requires BindName(f) != ""
    ensures FieldTexts(Variable, Holding(f, s), "") == [Key(f) + (if f.value.Struct? then EnvKey(s) else "")]
    ensures Solid(Holding(f, s), "")
  {
    if f.value.Struct? {
      OnlyText(Holding(f, s), s);
    } else {
      FieldTextsStart(Variable, f, "");
      assert Key(f) + "" == Key(f);
    }
  }

  lemma ContinuationOverlaps(f: Field, g: Field)
    requires f.value.Struct? && (if g.value.Struct? then Key(f) <= Key(g) else Key(f) < Key(g))
    requires BindName(f) != "" && BindName(g) != "" && '.' !in BindName(g)
    ensures var c, h := Holding(f, Continuation(f, g)), Holding(g, "x");
            Overlap(Variable, "", c, "", h) && Overlap(Variable, "", h, "", c)
  {
    var s := Continuation(f, g);
    var c, h := Holding(f, s), Holding(g, "x");
    ContinuationFits(f, g);
    HoldingText(f, s);
    HoldingText(g, "x");
    assert EnvKey("x") == "X";
    hide *;
    OneShared(Key(f) + EnvKey(s), Key(f) + EnvKey(s));
    OverlapExactly(Variable, "", c, "", h);
    OverlapExactly(Variable, "", h, "", c);
  }

  lemma LeavesOverlap(f: Field, g: Field)
    requires !f.value.Struct? && !g.value.Struct? && Key(f) == Key(g)
    ensures Overlap(Variable, "", f, "", g)
  {
  }

  /** What to put into the structs so that two names that are not apart make two variables equal. */
  function Clashing(fs: seq<Field>, i: nat, j: nat): seq<Field>
    requires i < j < |fs| && !NamesApart(fs[i], fs[j])
  {
    var f, g := fs[i], fs[j];
    if !f.value.Struct? && !g.value.Struct? then Filled(fs, i, "x", j, "x")
    else if f.value.Struct? && Key(f) <= Key(g) then Filled(fs, i, Continuation(f, g), j, "x")
    else Filled(fs, i, "x", j, Continuation(g, f))
  }

  lemma FilledAt(fs: seq<Field>, i: nat, s: string, j: nat, t: string)
    requires i < j < |fs|
    ensures |Filled(fs, i, s, j, t)| == |fs|
    ensures Filled(fs, i, s, j, t)[i] == Holding(fs[i], s) && Filled(fs, i, s, j, t)[j] == Holding(fs[j], t)
  {
  }

  lemma ClashingOverlaps(fs: seq<Field>, i: nat, j: nat)
    requires WellNamed(fs) && i < j < |fs| && !NamesApart(fs[i], fs[j])
    ensures var gs := Clashing(fs, i, j);
            && SameNames(fs, gs) && WellNamed(gs) && InsidesApart(gs)
            && |gs| == |fs| && Overlap(Variable, "", gs[i], "", gs[j])
  {
    var f, g := fs[i], fs[j];
    WellNamedMeans(fs);
    assert BindName(f) != "" && '.' !in BindName(f) && BindName(g) != "" && '.' !in BindName(g);
    hide Key, Filled, Holding, Continuation, Overlap, WellNamed, SameNames, InsidesApart;
    if !f.value.Struct? && !g.value.Struct? {
      FilledWell(fs, i, "x", j, "x");
      FilledAt(fs, i, "x", j, "x");
      LeafHeld(f, "x");
      LeafHeld(g, "x");
      LeavesOverlap(f, g);
    } else if f.value.Struct? && Key(f) <= Key(g) {
      ContinuationFits(f, g);
      ContinuationOverlaps(f, g);
      FilledWell(fs, i, Continuation(f, g), j, "x");
      FilledAt(fs, i, Continuation(f, g), j, "x");
    } else {
      ContinuationFits(g, f);
      ContinuationOverlaps(g, f);
      FilledWell(fs, i, "x", j, Continuation(g, f));
      FilledAt(fs, i, "x", j, Continuation(g, f));
    }
  }

  lemma LeafHeld(f: Field, s: string)
    requires !f.value.Struct?
    ensures Holding(f, s) == f
  {
  }

  lemma {:induction false} NoOverlapMeans(y: Style, fs: seq<Field>)
    requires NoOverlap(y, fs)
    ensures forall i, j | 0 <= i < j < |fs| :: !Overlap(y, "", fs[i], "", fs[j])
    decreases |fs|
  {
    hide Overlap;
    if |fs| > 0 {
      NoOverlapMeans(y, fs[1..]);
      assert forall k | 1 <= k < |fs| :: fs[k] == fs[1..][k - 1];
    }
  }

  /** For the names of one level: whatever the structs hold, as long as it is well named and
      apart within each of them, distinct leaves get distinct variables, if and only if the
      names are apart. */
  lemma NamesApartExactly(fs: seq<Field>, at: seq<nat>, from: nat, prefix: string)
    requires WellNamed(fs)
    ensures (forall gs | SameNames(fs, gs) && WellNamed(gs) && InsidesApart(gs) ::
               DistinctVariables(BindVisits(gs, at, from, prefix)))
            <==> SiblingsApart(fs)
  {
    if SiblingsApart(fs) {
      forall gs | SameNames(fs, gs) && WellNamed(gs) && InsidesApart(gs)
        ensures DistinctVariables(BindVisits(gs, at, from, prefix))
      {
        assert forall k | 0 <= k < |fs| :: Key(fs[k]) == Key(gs[k]);
        assert SiblingsApart(gs);
        ApartAtEveryLevel(gs);
        VariablesDistinct(gs, at, from, prefix);
      }
    } else {
      var i, j :| 0 <= i < j < |fs| && !NamesApart(fs[i], fs[j]);
      var gs := Clashing(fs, i, j);
      ClashingOverlaps(fs, i, j);
      VariablesDistinctExactly(gs, at, from, prefix);
      if NoOverlap(Variable, gs) {
        NoOverlapMeans(Variable, gs);
      }
    }
  }

  /** The failure at a tree: whatever the three names, the tree m{s_t}, m_s{t} is well named
      and its two leaves have different paths and one variable. */
  lemma VariablesCanCollide(m: string, s: string, t: string)
    requires m != "" && s != "" && t != "" && '.' !in m && '.' !in s && '.' !in t
    ensures var fs := [Field("A", Some(m), Only(s + "_" + t)), Field("B", Some(m + "_" + s), Only(t))];
            WellNamed(fs) && DistinctPaths(BindVisits(fs, [], 0, "")) && !DistinctVariables(BindVisits(fs, [], 0, ""))
  {
    var f, g := Field("A", Some(m), Only(s + "_" + t)), Field("B", Some(m + "_" + s), Only(t));
    var fs := [f, g];
    assert BindName(f) == m && BindName(g) == m + "_" + s;
    OnlyWell(s + "_" + t);
    OnlyWell(t);
    hide EnvKey, Key, Only, WellNamed;
    WellNamedIf(fs);
    WellNamedMeans(fs);
    PathsDistinct(fs, [], 0, "");
    VariablesDistinctExactly(fs, [], 0, "");
    if NoOverlap(Variable, fs) {
      NoOverlapMeans(Variable, fs);
      assert fs[0] == f && fs[1] == g;
    }
    SameText(f, g, m, s, t);
  }

  lemma SameText(f: Field, g: Field, m: string, s: string, t: string)
    requires BindName(f) == m != "" && f.value == Only(s + "_" + t) && BindName(g) == m + "_" + s && g.value == Only(t)
    ensures Overlap(Variable, "", f, "", g)
  {
    OnlyText(f, s + "_" + t);
    OnlyText(g, t);
    KeyOf(f);
    KeyOf(g);
    hide EnvKey, Key;
    CapitalX();
    SpellConcat(Variable, s + "_", t);
    SpellConcat(Variable, s, "_");
    SpellConcat(Variable, m + "_", s);
    SpellConcat(Variable, m, "_");
    assert Key(f) + EnvKey(s + "_" + t) == Key(g) + EnvKey(t);
    OneShared(Key(f) + EnvKey(s + "_" + t), Key(g) + EnvKey(t));
    OverlapExactly(Variable, "", f, "", g);
  }
}

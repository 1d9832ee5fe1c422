/** When distinct leaves of a configuration tree get distinct dotted paths, and when they get
    distinct environment variables. Both are the names on the way to a leaf, spelled and
    joined with a separator. */
module ConfigPaths {
  import opened ConfigWalk
  import opened Wrappers

  /** How the names are spelled: as dotted paths or as environment variables. */
  datatype Style = Dotted | Variable
  {
    function Spell(s: string): string {
      if Dotted? then s else EnvKey(s)
    }

    function Separator(): (c: string)
      ensures |c| == 1
    {
      if Dotted? then "." else "_"
    }
  }

  lemma SpellConcat(y: Style, a: string, b: string)
    ensures y.Spell(a + b) == y.Spell(a) + y.Spell(b)
    ensures y.Spell(".") == y.Separator() && (y.Spell(a) == "" <==> a == "")
  {
  }

  // ---- The texts of a tree ----

  /** The spelled paths of the leaves in a field that comes after the given text, which is
      empty or ends with a separator. */
  function FieldTexts(y: Style, f: Field, lead: string): seq<string>
    decreases f
  {
    var text := lead + y.Spell(BindName(f));
    if !f.value.Struct? then [text]
    else ListTexts(y, f.value.fields, if text == "" then "" else text + y.Separator())
  }

  function ListTexts(y: Style, fs: seq<Field>, lead: string): seq<string>
    decreases fs
  {
    if |fs| == 0 then [] else FieldTexts(y, fs[0], lead) + ListTexts(y, fs[1..], lead)
  }

  function Lead(y: Style, prefix: string): string {
    if prefix == "" then "" else y.Spell(prefix) + y.Separator()
  }

  function Spelled(y: Style, vs: seq<Visit>): seq<string> {
    seq(|vs|, i requires 0 <= i < |vs| => y.Spell(vs[i].path))
  }

  lemma JoinSpelled(y: Style, prefix: string, name: string)
    ensures y.Spell(Join(prefix, name)) == Lead(y, prefix) + y.Spell(name)
    ensures Join(prefix, name) == "" <==> Lead(y, prefix) + y.Spell(name) == ""
  {
    SpellConcat(y, prefix, ".");
    SpellConcat(y, prefix + ".", name);
    SpellConcat(y, prefix, name);
    SpellConcat(y, name, name);
  }

  /** The texts are those of the paths that the binding walk visits. */
  lemma {:induction false} VisitTexts(y: Style, fs: seq<Field>, at: seq<nat>, from: nat, prefix: string)
    ensures Spelled(y, BindVisits(fs, at, from, prefix)) == ListTexts(y, fs, Lead(y, prefix))
    decreases fs
  {
    if |fs| > 0 {
      FieldVisitTexts(y, fs[0], at + [from], prefix);
      VisitTexts(y, fs[1..], at, from + 1, prefix);
    }
  }

  lemma {:induction false} FieldVisitTexts(y: Style, f: Field, at: seq<nat>, prefix: string)
    ensures Spelled(y, BindField(f, at, prefix)) == FieldTexts(y, f, Lead(y, prefix))
    decreases f
  {
    JoinSpelled(y, prefix, BindName(f));
    if f.value.Struct? {
      VisitTexts(y, f.value.fields, at, 0, Join(prefix, BindName(f)));
    }
  }

  lemma {:induction false} ListTextsIn(y: Style, fs: seq<Field>, lead: string, s: string)
    ensures s in ListTexts(y, fs, lead) <==> exists k | 0 <= k < |fs| :: s in FieldTexts(y, fs[k], lead)
  {
    if |fs| > 0 {
      ListTextsIn(y, fs[1..], lead, s);
      if s in ListTexts(y, fs[1..], lead) {
        var k :| 0 <= k < |fs[1..]| && s in FieldTexts(y, fs[1..][k], lead);
        assert s in FieldTexts(y, fs[k + 1], lead);
      }
      if k :| 0 < k < |fs| && s in FieldTexts(y, fs[k], lead) {
        assert s in FieldTexts(y, fs[1..][k - 1], lead);
      }
    }
  }

  lemma TextsAssociate(a: seq<string>, b: seq<string>, c: seq<string>)
    ensures (a + b) + c == a + (b + c)
  {
  }

  lemma FirstOfConcat(a: seq<Field>, b: seq<Field>)
    requires |a| > 0
    ensures (a + b)[0] == a[0] && (a + b)[1..] == a[1..] + b
  {
  }

  lemma {:induction false} ListTextsConcat(y: Style, a: seq<Field>, b: seq<Field>, lead: string)
    ensures ListTexts(y, a + b, lead) == ListTexts(y, a, lead) + ListTexts(y, b, lead)
  {
    hide FieldTexts;
    if |a| == 0 {
      assert a + b == b;
    } else {
      FirstOfConcat(a, b);
      ListTextsConcat(y, a[1..], b, lead);
      TextsAssociate(FieldTexts(y, a[0], lead), ListTexts(y, a[1..], lead), ListTexts(y, b, lead));
    }
  }

  // ---- Empty names at the root ----

  /** The root's fields, with the contents of a struct whose name is empty in its place: the
      walk joins no separator to an empty prefix. */
  function Hoisted(fs: seq<Field>): seq<Field>
    decreases fs
  {
    if |fs| == 0 then []
    else (if fs[0].value.Struct? && BindName(fs[0]) == "" then Hoisted(fs[0].value.fields) else [fs[0]]) + Hoisted(fs[1..])
  }

  lemma {:induction false} HoistedTexts(y: Style, fs: seq<Field>)
    ensures ListTexts(y, fs, "") == ListTexts(y, Hoisted(fs), "")
    decreases fs
  {
    if |fs| > 0 {
      HoistedTexts(y, fs[1..]);
      if fs[0].value.Struct? && BindName(fs[0]) == "" {
        HoistedTexts(y, fs[0].value.fields);
        ListTextsConcat(y, Hoisted(fs[0].value.fields), Hoisted(fs[1..]), "");
      } else {
        ListTextsConcat(y, [fs[0]], Hoisted(fs[1..]), "");
        assert ListTexts(y, [fs[0]], "") == FieldTexts(y, fs[0], "") + ListTexts(y, [fs[0]][1..], "");
      }
    }
  }

  /** The contents of the field come after a text that is not empty. */
  predicate Solid(f: Field, lead: string) {
    f.value.Struct? ==> lead != "" || BindName(f) != ""
  }

  lemma {:induction false} HoistedSolid(fs: seq<Field>)
    ensures forall f | f in Hoisted(fs) :: Solid(f, "")
    decreases fs
  {
    if |fs| > 0 {
      HoistedSolid(fs[1..]);
      if fs[0].value.Struct? && BindName(fs[0]) == "" {
        HoistedSolid(fs[0].value.fields);
      }
    }
  }

  // ---- Overlap ----

  /** The text that every leaf text of the field starts with. */
  function Start(y: Style, f: Field, lead: string): string {
    lead + y.Spell(BindName(f)) + (if f.value.Struct? then y.Separator() else "")
  }

  lemma {:induction false} ListTextsStart(y: Style, fs: seq<Field>, lead: string)
    requires lead != ""
    ensures forall s | s in ListTexts(y, fs, lead) :: lead <= s
    decreases fs
  {
    if |fs| > 0 {
      FieldTextsStart(y, fs[0], lead);
      ListTextsStart(y, fs[1..], lead);
      forall s | s in ListTexts(y, fs, lead) ensures lead <= s {
        if s in FieldTexts(y, fs[0], lead) {
          assert lead <= Start(y, fs[0], lead) <= s;
        } else {
          assert s in ListTexts(y, fs[1..], lead);
        }
      }
    }
  }

  lemma {:induction false} FieldTextsStart(y: Style, f: Field, lead: string)
    requires Solid(f, lead)
    ensures forall s | s in FieldTexts(y, f, lead) :: Start(y, f, lead) <= s
    ensures !f.value.Struct? ==> FieldTexts(y, f, lead) == [Start(y, f, lead)]
    ensures f.value.Struct? ==> FieldTexts(y, f, lead) == ListTexts(y, f.value.fields, Start(y, f, lead))
    decreases f
  {
    var text := lead + y.Spell(BindName(f));
    assert text + "" == text;
    if f.value.Struct? {
      ListTextsStart(y, f.value.fields, Start(y, f, lead));
    }
  }

  /** Two fields, each behind a text of its own, hold leaves with the same text: their names
      agree as far as both reach, and the longer one goes on inside the shorter. */
  predicate Overlap(y: Style, a: string, f: Field, b: string, g: Field)
    decreases f, g
  {
    var s, t := Start(y, f, a), Start(y, g, b);
    if !f.value.Struct? && !g.value.Struct? then s == t
    else if f.value.Struct? && (!g.value.Struct? || |s| <= |t|) then
      s <= t && exists k | 0 <= k < |f.value.fields| :: Overlap(y, s, f.value.fields[k], b, g)
    else
      t <= s && exists k | 0 <= k < |g.value.fields| :: Overlap(y, a, f, t, g.value.fields[k])
  }

  ghost predicate Share(a: seq<string>, b: seq<string>) {
    exists s :: s in a && s in b
  }

  lemma {:induction false} OverlapExactly(y: Style, a: string, f: Field, b: string, g: Field)
    requires Solid(f, a) && Solid(g, b)
    ensures Overlap(y, a, f, b, g) <==> Share(FieldTexts(y, f, a), FieldTexts(y, g, b))
    decreases f, g
  {
    var s, t := Start(y, f, a), Start(y, g, b);
    FieldTextsStart(y, f, a);
    FieldTextsStart(y, g, b);
    hide FieldTexts, ListTexts, Start;
    if !f.value.Struct? && !g.value.Struct? {
      OneShared(s, t);
    } else if f.value.Struct? && (!g.value.Struct? || |s| <= |t|) {
      forall k | 0 <= k < |f.value.fields|
        ensures Overlap(y, s, f.value.fields[k], b, g) <==> Share(FieldTexts(y, f.value.fields[k], s), FieldTexts(y, g, b))
      {
        StartNotEmpty(y, f, a);
        OverlapExactly(y, s, f.value.fields[k], b, g);
      }
      SharedInside(y, f.value.fields, s, t, FieldTexts(y, g, b));
    } else {
      forall k | 0 <= k < |g.value.fields|
        ensures Overlap(y, a, f, t, g.value.fields[k]) <==> Share(FieldTexts(y, g.value.fields[k], t), FieldTexts(y, f, a))
      {
        StartNotEmpty(y, g, b);
        OverlapExactly(y, a, f, t, g.value.fields[k]);
      }
      SharedInside(y, g.value.fields, t, s, FieldTexts(y, f, a));
    }
  }

  lemma OneShared(s: string, t: string)
    ensures Share([s], [t]) <==> s == t
  {
    assert s in [s];
  }

  lemma StartNotEmpty(y: Style, f: Field, lead: string)
    requires f.value.Struct?
    ensures Start(y, f, lead) != ""
  {
  }

  /** Texts that start with t share one with a struct whose texts start with the shorter s
      exactly when t starts with s and they share one with a field of the struct. */
  lemma SharedInside(y: Style, fs: seq<Field>, s: string, t: string, others: seq<string>)
    requires s != "" && (forall w | w in others :: t <= w)
    requires |s| <= |t| || forall w | w in others :: w == t
    ensures Share(ListTexts(y, fs, s), others) <==>
              s <= t && exists k | 0 <= k < |fs| :: Share(FieldTexts(y, fs[k], s), others)
  {
    ListTextsStart(y, fs, s);
    if w :| w in ListTexts(y, fs, s) && w in others {
      ListTextsIn(y, fs, s, w);
      assert s <= w && t <= w;
    }
    if k :| 0 <= k < |fs| && Share(FieldTexts(y, fs[k], s), others) {
      var w :| w in FieldTexts(y, fs[k], s) && w in others;
      ListTextsIn(y, fs, s, w);
    }
  }

  // ---- Distinct texts ----

  ghost predicate Distinct(ts: seq<string>) {
    forall i, j | 0 <= i < j < |ts| :: ts[i] != ts[j]
  }

  lemma DistinctConcat(a: seq<string>, b: seq<string>)
    ensures Distinct(a + b) <==> Distinct(a) && Distinct(b) && !Share(a, b)
  {
    var ts := a + b;
    if Distinct(ts) {
      assert forall i | 0 <= i < |a| :: a[i] == ts[i];
      assert forall j | 0 <= j < |b| :: b[j] == ts[|a| + j];
    } else {
      var i, j :| 0 <= i < j < |ts| && ts[i] == ts[j];
      assert i < |a| ==> a[i] == ts[i] && a[i] in a;
      assert |a| <= j ==> b[j - |a|] == ts[j] && b[j - |a|] in b;
    }
  }

  /** No two siblings overlap, at any level. */
  predicate NoOverlap(y: Style, fs: seq<Field>)
    decreases fs
  {
    |fs| > 0 ==>
      && (fs[0].value.Struct? ==> NoOverlap(y, fs[0].value.fields))
      && (forall k | 1 <= k < |fs| :: !Overlap(y, "", fs[0], "", fs[k]))
      && NoOverlap(y, fs[1..])
  }

  /** A text in front of both fields makes no difference. */
  lemma {:induction false} OverlapShift(y: Style, c: string, a: string, f: Field, b: string, g: Field)
    ensures Overlap(y, c + a, f, c + b, g) <==> Overlap(y, a, f, b, g)
    decreases f, g
  {
    var s, t := Start(y, f, a), Start(y, g, b);
    StartShift(y, c, f, a);
    StartShift(y, c, g, b);
    Shifted(c, s, t);
    Shifted(c, t, s);
    hide Start;
    if f.value.Struct? && (!g.value.Struct? || |s| <= |t|) {
      forall k | 0 <= k < |f.value.fields|
        ensures Overlap(y, c + s, f.value.fields[k], c + b, g) <==> Overlap(y, s, f.value.fields[k], b, g)
      {
        OverlapShift(y, c, s, f.value.fields[k], b, g);
      }
    } else if g.value.Struct? {
      forall k | 0 <= k < |g.value.fields|
        ensures Overlap(y, c + a, f, c + t, g.value.fields[k]) <==> Overlap(y, a, f, t, g.value.fields[k])
      {
        OverlapShift(y, c, a, f, t, g.value.fields[k]);
      }
    }
  }

  lemma StartShift(y: Style, c: string, f: Field, a: string)
    ensures Start(y, f, c + a) == c + Start(y, f, a)
  {
  }

  lemma Shifted(c: string, s: string, t: string)
    ensures c + s <= c + t <==> s <= t
    ensures c + s == c + t <==> s == t
  {
    assert s == (c + s)[|c|..] && t == (c + t)[|c|..];
    if c + s <= c + t {
      assert (c + t)[..|c + s|] == c + s;
      assert t[..|s|] == (c + t)[|c|..|c + s|] == s;
    }
  }

  lemma SiblingsOverlap(y: Style, f: Field, g: Field, lead: string)
    requires Solid(f, lead) && Solid(g, lead)
    ensures Overlap(y, "", f, "", g) <==> Share(FieldTexts(y, f, lead), FieldTexts(y, g, lead))
  {
    OverlapExactly(y, lead, f, lead, g);
    OverlapShift(y, lead, "", f, "", g);
    assert lead + "" == lead;
  }

  lemma {:induction false} ListTextsDistinct(y: Style, fs: seq<Field>, lead: string)
    requires forall f | f in fs :: Solid(f, lead)
    ensures Distinct(ListTexts(y, fs, lead)) <==> NoOverlap(y, fs)
    decreases fs
  {
    if |fs| > 0 {
      var f, rest := fs[0], ListTexts(y, fs[1..], lead);
      assert f in fs;
      ListTextsDistinct(y, fs[1..], lead);
      FieldTextsStart(y, f, lead);
      if f.value.Struct? {
        StartNotEmpty(y, f, lead);
        ListTextsDistinct(y, f.value.fields, Start(y, f, lead));
      }
      DistinctConcat(FieldTexts(y, f, lead), rest);
      RestOverlaps(y, fs, lead);
    }
  }

  lemma RestOverlaps(y: Style, fs: seq<Field>, lead: string)
    requires |fs| > 0 && forall f | f in fs :: Solid(f, lead)
    ensures Share(FieldTexts(y, fs[0], lead), ListTexts(y, fs[1..], lead)) <==>
              exists k | 1 <= k < |fs| :: Overlap(y, "", fs[0], "", fs[k])
  {
    hide Overlap, FieldTexts, ListTexts;
    forall k | 1 <= k < |fs|
      ensures Overlap(y, "", fs[0], "", fs[k]) <==> Share(FieldTexts(y, fs[0], lead), FieldTexts(y, fs[k], lead))
    {
      assert fs[0] in fs && fs[k] in fs;
      SiblingsOverlap(y, fs[0], fs[k], lead);
    }
    if w :| w in FieldTexts(y, fs[0], lead) && w in ListTexts(y, fs[1..], lead) {
      ListTextsIn(y, fs[1..], lead, w);
      var k :| 0 <= k < |fs[1..]| && w in FieldTexts(y, fs[1..][k], lead);
      assert fs[1..][k] == fs[k + 1];
    }
    if k :| 1 <= k < |fs| && Overlap(y, "", fs[0], "", fs[k]) {
      var w :| w in FieldTexts(y, fs[0], lead) && w in FieldTexts(y, fs[k], lead);
      assert fs[k] == fs[1..][k - 1];
      ListTextsIn(y, fs[1..], lead, w);
    }
  }

  /** For every tree and either spelling: distinct leaves get distinct texts if and only if
      no two siblings overlap, once the contents of root structs with an empty name stand
      among the root's own fields. Below a prefix that is not empty nothing moves. */
  lemma TextsDistinctExactly(y: Style, fs: seq<Field>, at: seq<nat>, from: nat, prefix: string)
    ensures Distinct(Spelled(y, BindVisits(fs, at, from, prefix))) <==> NoOverlap(y, if prefix == "" then Hoisted(fs) else fs)
  {
    VisitTexts(y, fs, at, from, prefix);
    if prefix == "" {
      HoistedTexts(y, fs);
      HoistedSolid(fs);
      ListTextsDistinct(y, Hoisted(fs), "");
    } else {
      ListTextsDistinct(y, fs, Lead(y, prefix));
    }
  }

  // ---- Names without dots ----

  /** Siblings have different names, and no name contains a dot. */
  predicate Undotted(fs: seq<Field>)
    decreases fs
  {
    |fs| > 0 ==>
      && UndottedField(fs[0])
      && (forall k | 1 <= k < |fs| :: BindName(fs[k]) != BindName(fs[0]))
      && Undotted(fs[1..])
  }

  predicate UndottedField(f: Field)
    decreases f
  {
    '.' !in BindName(f) && (f.value.Struct? ==> Undotted(f.value.fields))
  }

  lemma {:induction false} UndottedMeans(fs: seq<Field>)
    requires Undotted(fs)
    ensures forall k | 0 <= k < |fs| :: UndottedField(fs[k])
    ensures forall i, j | 0 <= i < j < |fs| :: BindName(fs[i]) != BindName(fs[j])
  {
    if |fs| > 0 {
      UndottedMeans(fs[1..]);
      assert forall k | 1 <= k < |fs| :: fs[k] == fs[1..][k - 1];
    }
  }

  /** The same name leads to a leaf in both fields, by the same names all the way down. */
  predicate Meet(f: Field, g: Field)
    decreases f
  {
    && BindName(f) == BindName(g)
    && f.value.Struct? == g.value.Struct?
    && (f.value.Struct? ==> exists i, j | 0 <= i < |f.value.fields| && 0 <= j < |g.value.fields| ::
                              Meet(f.value.fields[i], g.value.fields[j]))
  }

  lemma DotPrefix(m: string, n: string)
    ensures m + "." <= n ==> '.' in n
    ensures m + "." <= n + "." ==> m == n || m + "." <= n
  {
    if m + "." <= n {
      assert n[|m|] == (m + ".")[|m|];
    }
    if m + "." <= n + "." {
      assert m == (m + ".")[..|m|] == (n + ".")[..|m|] == n[..|m|];
      assert |m| == |n| || (n + ".")[..|m| + 1] == n[..|m| + 1];
    }
  }

  lemma {:induction false} MeetExactly(f: Field, g: Field)
    requires UndottedField(f) && UndottedField(g)
    ensures Overlap(Dotted, "", f, "", g) <==> Meet(f, g)
    decreases f
  {
    var m, n := BindName(f), BindName(g);
    DotPrefix(m, n);
    DotPrefix(n, m);
    assert Start(Dotted, f, "") == if f.value.Struct? then m + "." else m;
    assert Start(Dotted, g, "") == if g.value.Struct? then n + "." else n;
    if f.value.Struct? && g.value.Struct? && m == n {
      var s := Start(Dotted, f, "");
      UndottedMeans(f.value.fields);
      UndottedMeans(g.value.fields);
      forall i | 0 <= i < |f.value.fields|
        ensures Overlap(Dotted, s, f.value.fields[i], "", g) <==>
                exists j | 0 <= j < |g.value.fields| :: Meet(f.value.fields[i], g.value.fields[j])
      {
        forall j | 0 <= j < |g.value.fields|
          ensures Overlap(Dotted, s, f.value.fields[i], s, g.value.fields[j]) <==> Meet(f.value.fields[i], g.value.fields[j])
        {
          MeetExactly(f.value.fields[i], g.value.fields[j]);
          OverlapShift(Dotted, s, "", f.value.fields[i], "", g.value.fields[j]);
          assert s + "" == s;
        }
        InsideSame(f.value.fields[i], g, s);
      }
    }
  }

  lemma InsideSame(c: Field, g: Field, s: string)
    requires g.value.Struct? && s == Start(Dotted, g, "")
    ensures Overlap(Dotted, s, c, "", g) <==>
              exists j | 0 <= j < |g.value.fields| :: Overlap(Dotted, s, c, s, g.value.fields[j])
  {
    assert |Start(Dotted, c, s)| >= |s|;
  }

  predicate NoneMeet(fs: seq<Field>) {
    forall i, j | 0 <= i < j < |fs| :: !Meet(fs[i], fs[j])
  }

  lemma {:induction false} NoOverlapExactly(fs: seq<Field>)
    requires forall k | 0 <= k < |fs| :: UndottedField(fs[k])
    ensures NoOverlap(Dotted, fs) <==> NoneMeet(fs)
    decreases fs, 0
  {
    if |fs| > 0 {
      var rest := fs[1..];
      NoOverlapExactly(rest);
      if fs[0].value.Struct? {
        UndottedNoOverlap(fs[0].value.fields);
      }
      forall k | 1 <= k < |fs| ensures Overlap(Dotted, "", fs[0], "", fs[k]) <==> Meet(fs[0], fs[k]) {
        MeetExactly(fs[0], fs[k]);
      }
      NoneMeetSplit(fs);
    }
  }

  lemma NoneMeetSplit(fs: seq<Field>)
    requires |fs| > 0
    ensures NoneMeet(fs) <==> NoneMeet(fs[1..]) && forall k | 1 <= k < |fs| :: !Meet(fs[0], fs[k])
  {
    hide Meet;
    var rest := fs[1..];
    assert forall k | 0 <= k < |rest| :: rest[k] == fs[k + 1];
    if NoneMeet(rest) && forall k | 1 <= k < |fs| :: !Meet(fs[0], fs[k]) {
      forall i, j | 0 <= i < j < |fs| ensures !Meet(fs[i], fs[j]) {
        if i > 0 {
          assert !Meet(rest[i - 1], rest[j - 1]);
        }
      }
    }
  }

  lemma {:induction false} UndottedNoOverlap(fs: seq<Field>)
    requires Undotted(fs)
    ensures NoOverlap(Dotted, fs)
    decreases fs, 1
  {
    UndottedMeans(fs);
    NoOverlapExactly(fs);
  }

  lemma {:induction false} HoistedUndotted(fs: seq<Field>)
    requires forall k | 0 <= k < |fs| :: UndottedField(fs[k])
    ensures forall k | 0 <= k < |Hoisted(fs)| :: UndottedField(Hoisted(fs)[k])
    decreases fs
  {
    if |fs| > 0 {
      HoistedUndotted(fs[1..]);
      if fs[0].value.Struct? && BindName(fs[0]) == "" {
        UndottedMeans(fs[0].value.fields);
        HoistedUndotted(fs[0].value.fields);
      }
    }
  }

  ghost predicate DistinctPaths(vs: seq<Visit>) {
    forall i, j | 0 <= i < j < |vs| :: vs[i].path != vs[j].path
  }

  lemma DistinctSpelled(vs: seq<Visit>)
    ensures DistinctPaths(vs) <==> Distinct(Spelled(Dotted, vs))
  {
    assert forall i | 0 <= i < |vs| :: Spelled(Dotted, vs)[i] == vs[i].path;
  }

  /** For trees in which siblings have different names without dots, an empty one included:
      distinct leaves get distinct paths if and only if no two fields meet among the root's
      own and those hoisted into it. Below a prefix they always do. */
  lemma PathsDistinctExactly(fs: seq<Field>, at: seq<nat>, from: nat, prefix: string)
    requires Undotted(fs)
    ensures DistinctPaths(BindVisits(fs, at, from, prefix)) <==> prefix != "" || NoneMeet(Hoisted(fs))
  {
    DistinctSpelled(BindVisits(fs, at, from, prefix));
    TextsDistinctExactly(Dotted, fs, at, from, prefix);
    UndottedMeans(fs);
    if prefix == "" {
      HoistedUndotted(fs);
      NoOverlapExactly(Hoisted(fs));
    } else {
      UndottedNoOverlap(fs);
    }
  }

  /** No struct at the root has an empty name. */
  predicate RootNamed(fs: seq<Field>) {
    forall k | 0 <= k < |fs| :: fs[k].value.Struct? ==> BindName(fs[k]) != ""
  }

  lemma {:induction false} NothingHoisted(fs: seq<Field>)
    requires RootNamed(fs)
    ensures Hoisted(fs) == fs
  {
    if |fs| > 0 {
      NothingHoisted(fs[1..]);
    }
  }

  /** So it is only an empty tag of a struct at the root that can break this; below the root
      empty tags do no harm. */
  lemma PathsDistinct(fs: seq<Field>, at: seq<nat>, from: nat, prefix: string)
    requires Undotted(fs) && (prefix != "" || RootNamed(fs))
    ensures DistinctPaths(BindVisits(fs, at, from, prefix))
  {
    PathsDistinctExactly(fs, at, from, prefix);
    if prefix == "" {
      NothingHoisted(fs);
      UndottedMeans(fs);
      assert forall i, j | 0 <= i < j < |fs| :: !Meet(fs[i], fs[j]);
    }
  }

  /** Whatever leaf a tree has at its root, a struct with an empty tag beside it that holds a
      leaf of the same name makes two paths equal. */
  lemma EmptyTagCollides(f: Field, g: Field, inner: seq<Field>)
    requires !f.value.Struct? && !g.value.Struct? && BindName(f) == BindName(g) && '.' !in BindName(f) && BindName(f) != ""
    requires Undotted(inner) && g in inner
    ensures var fs := [f, Field("", Some(""), Struct(inner))];
            Undotted(fs) && !DistinctPaths(BindVisits(fs, [], 0, ""))
  {
    var e := Field("", Some(""), Struct(inner));
    var fs := [f, e];
    assert fs[1..] == [e] && [e][1..] == [];
    assert UndottedField(e) && Undotted([e]);
    PathsDistinctExactly(fs, [], 0, "");
    LeafHoisted(inner, g);
    assert Hoisted([e]) == Hoisted(inner) + Hoisted([e][1..]);
    assert Hoisted(fs) == [f] + Hoisted(inner);
    var j :| 0 <= j < |Hoisted(inner)| && Hoisted(inner)[j] == g;
    assert Hoisted(fs)[0] == f && Hoisted(fs)[j + 1] == g && Meet(f, g);
  }

  lemma {:induction false} LeafHoisted(fs: seq<Field>, g: Field)
    requires g in fs && !g.value.Struct?
    ensures g in Hoisted(fs)
  {
    if g != fs[0] {
      assert g in fs[1..];
      LeafHoisted(fs[1..], g);
    }
  }
}

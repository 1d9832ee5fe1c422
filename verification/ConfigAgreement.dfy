/** When the exporting and the binding walk agree. */
module ConfigAgreement {
  import opened Wrappers
  import opened ConfigWalk

  // ---- Agreement ----

  /** The tag is present and is its own first part, and that part is not one to skip. */
  predicate Plain(f: Field) {
    f.tag.Some? && f.tag.value != "" && f.tag.value != "-" && ',' !in f.tag.value
  }

  /** The binding walk finds no leaf. */
  predicate Leafless(fs: seq<Field>) {
    |fs| == 0 || (fs[0].value.Struct? && Leafless(fs[0].value.fields) && Leafless(fs[1..]))
  }

  /** Every field below which there is a leaf has a plain tag, and no field points to a struct. */
  predicate Clean(fs: seq<Field>)
    decreases fs
  {
    |fs| == 0 || (CleanField(fs[0]) && Clean(fs[1..]))
  }

  predicate CleanField(f: Field)
    decreases f
  {
    if f.value.Struct? then Leafless(f.value.fields) || (Plain(f) && Clean(f.value.fields))
    else Plain(f) && !Deref(f.value).Struct?
  }

  lemma {:induction false} FirstPart(tag: string)
    ensures BeforeComma(tag) <= tag && ',' !in BeforeComma(tag)
    ensures ',' !in tag <==> BeforeComma(tag) == tag
    ensures ',' in tag ==> |BeforeComma(tag)| < |tag| && tag[|BeforeComma(tag)|] == ','
  {
    if |tag| > 0 && tag[0] != ',' {
      FirstPart(tag[1..]);
      assert tag == [tag[0]] + tag[1..];
    }
  }

  /** Names agree exactly on plain tags, among the fields that the export does not skip. */
  lemma PlainNames(f: Field)
    ensures Plain(f) <==> !Skipped(f) && ExportName(f) == BindName(f) && f.tag.Some?
  {
    if f.tag.Some? {
      FirstPart(f.tag.value);
    }
  }

  lemma {:induction false} LeaflessVisits(fs: seq<Field>, at: seq<nat>, from: nat, prefix: string)
    ensures Leafless(fs) <==> BindVisits(fs, at, from, prefix) == []
    ensures Leafless(fs) ==> forall a, n, p :: ExportVisits(fs, a, n, p) == []
    decreases fs
  {
    if |fs| > 0 {
      LeaflessVisits(fs[1..], at, from + 1, prefix);
      if fs[0].value.Struct? {
        LeaflessVisits(fs[0].value.fields, at + [from], 0, Join(prefix, BindName(fs[0])));
        if Leafless(fs) {
          forall a, n, p ensures ExportVisits(fs, a, n, p) == [] {
            assert ExportField(fs[0], a + [n], p) == [];
            assert ExportVisits(fs[1..], a, n + 1, p) == [];
          }
        }
      }
    }
  }

  // Every visit of a walk lies at or below the field it is in.

  lemma {:induction false} ExportBelow(fs: seq<Field>, at: seq<nat>, from: nat, prefix: string)
    ensures forall v | v in ExportVisits(fs, at, from, prefix) :: at <= v.at && |at| < |v.at| && from <= v.at[|at|]
    decreases fs
  {
    if |fs| > 0 {
      ExportFieldBelow(fs[0], at + [from], prefix);
      ExportBelow(fs[1..], at, from + 1, prefix);
    }
  }

  lemma {:induction false} ExportFieldBelow(f: Field, at: seq<nat>, prefix: string)
    ensures forall v | v in ExportField(f, at, prefix) :: at <= v.at
    ensures Deref(f.value).Struct? ==> forall v | v in ExportField(f, at, prefix) :: at < v.at
    decreases f
  {
    if !Skipped(f) && Deref(f.value).Struct? {
      ExportBelow(Deref(f.value).fields, at, 0, Join(prefix, ExportName(f)));
    }
  }

  lemma {:induction false} BindBelow(fs: seq<Field>, at: seq<nat>, from: nat, prefix: string)
    ensures forall v | v in BindVisits(fs, at, from, prefix) :: at <= v.at && |at| < |v.at| && from <= v.at[|at|]
    decreases fs
  {
    if |fs| > 0 {
      BindFieldBelow(fs[0], at + [from], prefix);
      BindBelow(fs[1..], at, from + 1, prefix);
    }
  }

  lemma {:induction false} BindFieldBelow(f: Field, at: seq<nat>, prefix: string)
    ensures forall v | v in BindField(f, at, prefix) :: at <= v.at
    decreases f
  {
    if f.value.Struct? {
      BindBelow(f.value.fields, at, 0, Join(prefix, BindName(f)));
    }
  }

  /** How many visits at the front lie in field number `from` at the given depth. */
  function Leading(vs: seq<Visit>, depth: nat, from: nat): nat {
    if |vs| == 0 || |vs[0].at| <= depth || vs[0].at[depth] != from then 0 else 1 + Leading(vs[1..], depth, from)
  }

  lemma {:induction false} LeadingPart(a: seq<Visit>, b: seq<Visit>, depth: nat, from: nat)
    requires forall v | v in a :: depth < |v.at| && v.at[depth] == from
    requires forall v | v in b :: depth < |v.at| && v.at[depth] > from
    ensures Leading(a + b, depth, from) == |a|
  {
    if |a| == 0 {
      assert a + b == b;
    } else {
      LeadingPart(a[1..], b, depth, from);
      assert (a + b)[1..] == a[1..] + b;
    }
  }

  /** Two lists that agree as a whole agree part by part when position tells the parts apart. */
  lemma PartsAgree(a: seq<Visit>, b: seq<Visit>, c: seq<Visit>, d: seq<Visit>, depth: nat, from: nat)
    requires forall v | v in a || v in c :: depth < |v.at| && v.at[depth] == from
    requires forall v | v in b || v in d :: depth < |v.at| && v.at[depth] > from
    ensures a + b == c + d <==> a == c && b == d
  {
    LeadingPart(a, b, depth, from);
    LeadingPart(c, d, depth, from);
    if a + b == c + d {
      assert a == (a + b)[..|a|] && c == (c + d)[..|c|];
      assert b == (a + b)[|a|..] && d == (c + d)[|c|..];
    }
  }

  /** Below a non-empty prefix every path starts with the prefix and a dot. */
  lemma {:induction false} ExportPaths(fs: seq<Field>, at: seq<nat>, from: nat, prefix: string)
    requires prefix != ""
    ensures forall v | v in ExportVisits(fs, at, from, prefix) :: prefix + "." <= v.path
    decreases fs
  {
    if |fs| > 0 {
      ExportPaths(fs[1..], at, from + 1, prefix);
      var path := Join(prefix, ExportName(fs[0]));
      if !Skipped(fs[0]) && Deref(fs[0].value).Struct? {
        ExportPaths(Deref(fs[0].value).fields, at + [from], 0, path);
        assert prefix + "." <= path <= path + ".";
      }
    }
  }

  lemma {:induction false} BindPaths(fs: seq<Field>, at: seq<nat>, from: nat, prefix: string)
    requires prefix != ""
    ensures forall v | v in BindVisits(fs, at, from, prefix) :: prefix + "." <= v.path
    decreases fs
  {
    if |fs| > 0 {
      BindPaths(fs[1..], at, from + 1, prefix);
      var path := Join(prefix, BindName(fs[0]));
      if fs[0].value.Struct? {
        BindPaths(fs[0].value.fields, at + [from], 0, path);
        assert prefix + "." <= path <= path + ".";
      }
    }
  }

  /** The walks make the same visits, in the same order, if and only if the tree is clean. */
  lemma {:induction false} WalksAgreeExactly(fs: seq<Field>, at: seq<nat>, from: nat, prefix: string)
    ensures ExportVisits(fs, at, from, prefix) == BindVisits(fs, at, from, prefix) <==> Clean(fs)
    decreases fs, 1
  {
    if |fs| > 0 {
      FieldsAgreeExactly(fs[0], at + [from], prefix);
      WalksAgreeExactly(fs[1..], at, from + 1, prefix);
      ExportFieldBelow(fs[0], at + [from], prefix);
      BindFieldBelow(fs[0], at + [from], prefix);
      ExportBelow(fs[1..], at, from + 1, prefix);
      BindBelow(fs[1..], at, from + 1, prefix);
      assert forall v: Visit | at + [from] <= v.at :: |at| < |v.at| && v.at[|at|] == (at + [from])[|at|] == from;
      PartsAgree(ExportField(fs[0], at + [from], prefix), ExportVisits(fs[1..], at, from + 1, prefix),
                 BindField(fs[0], at + [from], prefix), BindVisits(fs[1..], at, from + 1, prefix), |at|, from);
    }
  }

  lemma JoinInjective(prefix: string, m: string, n: string)
    ensures Join(prefix, m) == Join(prefix, n) <==> m == n
  {
    assert prefix != "" ==> Join(prefix, m)[|prefix| + 1..] == m && Join(prefix, n)[|prefix| + 1..] == n;
  }

  lemma {:induction false} FieldsAgreeExactly(f: Field, at: seq<nat>, prefix: string)
    ensures ExportField(f, at, prefix) == BindField(f, at, prefix) <==> CleanField(f)
    decreases f, 0
  {
    PlainNames(f);
    JoinInjective(prefix, ExportName(f), BindName(f));
    var e, b := ExportField(f, at, prefix), BindField(f, at, prefix);
    assert b == [] || b[0] in b;
    if f.value.Struct? {
      LeaflessVisits(f.value.fields, at, 0, Join(prefix, BindName(f)));
      if Plain(f) {
        WalksAgreeExactly(f.value.fields, at, 0, Join(prefix, BindName(f)));
      } else if !Skipped(f) {
        SplitTagPaths(f, at, prefix);
      }
    } else {
      ExportFieldBelow(f, at, prefix);
    }
  }

  /** Under a tag that is cut at a comma the two walks give different paths. */
  lemma SplitTagPaths(f: Field, at: seq<nat>, prefix: string)
    requires f.value.Struct? && !Skipped(f) && !Plain(f)
    ensures var n := |Join(prefix, ExportName(f))|;
            && (forall v | v in ExportField(f, at, prefix) :: n < |v.path| && v.path[n] == '.')
            && (forall v | v in BindField(f, at, prefix) :: n < |v.path| && v.path[n] == ',')
  {
    FirstPart(f.tag.value);
    var pe, pb := Join(prefix, ExportName(f)), Join(prefix, BindName(f));
    ExportPaths(f.value.fields, at, 0, pe);
    BindPaths(f.value.fields, at, 0, pb);
    assert (pe + ".")[|pe|] == '.' && pb[|pe|] == ',';
    forall v | v in BindField(f, at, prefix) ensures |pe| < |v.path| && v.path[|pe|] == ',' {
      assert pb + "." <= v.path;
      assert v.path[|pe|] == (pb + ".")[|pe|];
    }
    forall v | v in ExportField(f, at, prefix) ensures |pe| < |v.path| && v.path[|pe|] == '.' {
      assert pe + "." <= v.path;
      assert v.path[|pe|] == (pe + ".")[|pe|];
    }
  }

  /** For a clean tree the file that the exporter writes has one line for each BindEnv call,
      in the same order, and each line's variable is the one bound, with the value of the
      field it is bound to. */
  lemma CleanTreesAgree(fs: seq<Field>)
    requires Clean(fs)
    ensures var visits := BindVisits(fs, [], 0, "");
            && Exported(Ptr(Struct(fs)), [], "") == Lines(visits)
            && forall i | 0 <= i < |visits| ::
                 && Bindings(visits)[i] == (visits[i].path, EnvName(visits[i].path))
                 && Line(visits[i]) == Bindings(visits)[i].1 + "=" + visits[i].text + "\n"
  {
    WalksAgreeExactly(fs, [], 0, "");
    assert Deref(Ptr(Struct(fs))) == Struct(fs);
  }
}

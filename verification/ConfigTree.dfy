/** The configuration that the program declares: its mapstructure tags and their nesting.
    Whatever values it holds, its variables are exported as they are bound, and no two of its
    settings share a path or a variable. */
module ConfigTree {
  import opened ConfigAgreement
  import opened ConfigPaths
  import opened ConfigVariables
  import opened ConfigWalk
  import opened Wrappers

  datatype Node = Leaf(tag: string) | Group(tag: string, nodes: seq<Node>)

  /** The field has this tag and is a scalar or a struct of this shape; its Go name and the
      values of its leaves may be any. */
  predicate HasNode(f: Field, n: Node)
    decreases n
  {
    && f.tag == Some(n.tag)
    && if n.Leaf? then f.value.Scalar?
       else f.value.Struct? && |f.value.fields| == |n.nodes| && forall k | 0 <= k < |n.nodes| :: HasNode(f.value.fields[k], n.nodes[k])
  }

  predicate HasShape(fs: seq<Field>, nodes: seq<Node>) {
    |fs| == |nodes| && forall k | 0 <= k < |nodes| :: HasNode(fs[k], nodes[k])
  }

  // ---- Tags that keep both walks together and all names apart ----

  predicate WordChar(c: char) {
    'a' <= c <= 'z' || '0' <= c <= '9' || c == '_'
  }

  predicate Word(tag: string) {
    |tag| > 0 && forall k | 0 <= k < |tag| :: WordChar(tag[k])
  }

  predicate DifferAt(s: string, t: string, p: nat) {
    p < |s| && p < |t| && s[p] != t[p]
  }

  /** The tags differ early on, so that neither continues the other, or both are leaves and of
      different length. */
  predicate TagsApart(m: Node, n: Node) {
    || DifferAt(m.tag, n.tag, 0) || DifferAt(m.tag, n.tag, 1) || DifferAt(m.tag, n.tag, 2)
    || DifferAt(m.tag, n.tag, 3) || DifferAt(m.tag, n.tag, 4)
    || (m.Leaf? && n.Leaf? && |m.tag| != |n.tag|)
  }

  predicate LevelSound(nodes: seq<Node>) {
    && (forall k | 0 <= k < |nodes| :: Word(nodes[k].tag))
    && (forall i, j | 0 <= i < j < |nodes| :: TagsApart(nodes[i], nodes[j]))
  }

  predicate Sound(nodes: seq<Node>) {
    LevelSound(nodes) && forall k | 0 <= k < |nodes| && nodes[k].Group? :: Sound(nodes[k].nodes)
  }

  lemma WordKey(tag: string)
    requires Word(tag)
    ensures tag != "" && tag != "-" && '.' !in tag && ',' !in tag
    ensures forall k | 0 <= k < |tag| :: EnvKey(tag)[k] == EnvChar(tag[k])
  {
    assert WordChar(tag[0]) && "-"[0] == '-';
    assert forall c | c in tag :: WordChar(c);
  }

  lemma WordCharsKept(c: char, d: char)
    requires WordChar(c) && WordChar(d) && c != d
    ensures EnvChar(c) != EnvChar(d)
  {
  }

  lemma NodesApart(f: Field, m: Node, g: Field, n: Node)
    requires HasNode(f, m) && HasNode(g, n) && Word(m.tag) && Word(n.tag) && TagsApart(m, n)
    ensures BindName(f) != BindName(g) && NamesApart(f, g)
  {
    KeyOf(f);
    KeyOf(g);
    if p: nat :| p < 5 && DifferAt(m.tag, n.tag, p) {
      WordCharsKept(m.tag[p], n.tag[p]);
      assert Key(f)[p] == EnvChar(m.tag[p]) && Key(g)[p] == EnvChar(n.tag[p]);
    }
  }

  /** Everything follows from the tags alone, level by level. */
  lemma {:induction false} SoundTree(fs: seq<Field>, nodes: seq<Node>)
    requires HasShape(fs, nodes) && Sound(nodes)
    ensures Clean(fs) && WellNamed(fs) && AllApart(fs)
    decreases nodes
  {
    if |fs| > 0 {
      var f, n := fs[0], nodes[0];
      assert Sound(nodes[1..]) && HasShape(fs[1..], nodes[1..]) by {
        assert forall k | 0 <= k < |nodes[1..]| :: nodes[1..][k] == nodes[k + 1];
      }
      SoundTree(fs[1..], nodes[1..]);
      WordKey(n.tag);
      if n.Group? {
        SoundTree(f.value.fields, n.nodes);
      }
      forall k | 1 <= k < |fs| ensures BindName(fs[k]) != BindName(f) && NamesApart(f, fs[k]) {
        NodesApart(f, n, fs[k], nodes[k]);
      }
    }
  }

  // ---- The declared tree ----

  const RATE_LIMIT: seq<Node> := [Leaf("type"), Leaf("is_enabled"), Leaf("requests_per_minute"), Leaf("burst_interval")]
  const METRICS: seq<Node> := [Leaf("enabled"), Leaf("username"), Leaf("password")]
  const HTTP: seq<Node> := [
    Leaf("port"), Group("rate_limit", RATE_LIMIT), Group("swagger", [Leaf("port")]), Group("metrics", METRICS)]

  const GRAFANA: seq<Node> := [Leaf("username"), Leaf("password")]
  const OTEL: seq<Node> := [Leaf("endpoint"), Leaf("use_tls"), Leaf("headers"), Group("grafana", GRAFANA)]

  const GOOGLE: seq<Node> := [Leaf("client_id"), Leaf("client_secret"), Leaf("redirect_url"), Leaf("scopes")]
  const JWT: seq<Node> := [Leaf("key"), Leaf("audience"), Leaf("private_key"), Leaf("public_key")]
  const AUTH: seq<Node> := [Group("google", GOOGLE), Group("jwt", JWT)]

  const POSTGRES: seq<Node> := [Leaf("dsn"), Leaf("log_queries"), Leaf("query_timeout")]
  const DATABASE: seq<Node> := [Group("redis", [Leaf("dsn")]), Group("postgres", POSTGRES)]

  const SES: seq<Node> := [Leaf("region"), Leaf("access_key"), Leaf("secret_key")]
  const EMAIL: seq<Node> := [Leaf("provider"), Leaf("sender"), Leaf("sender_name"), Group("ses", SES)]

  const S3: seq<Node> := [
    Leaf("region"), Leaf("access_key"), Leaf("access_secret"), Leaf("endpoint"), Leaf("use_tls"), Leaf("log_operations"),
    Leaf("bucket"), Leaf("cloudflare_bucket_domain")]
  const UPLOADER: seq<Node> := [Group("s3", S3)]

  const CONFIG: seq<Node> := [
    Leaf("db_host"), Leaf("db_port"), Leaf("db_user"), Leaf("db_password"), Leaf("db_name"), Leaf("env"), Leaf("tz"),
    Leaf("db_ssl_mode"), Group("http", HTTP), Group("google_auth", [Leaf("code")]), Leaf("port"), Leaf("log_level"),
    Group("logging", [Leaf("mode")]), Group("otel", OTEL), Group("auth", AUTH), Group("database", DATABASE),
    Group("frontend", [Leaf("app_url")]), Group("email", EMAIL), Group("api_key", [Leaf("hash_secret")]),
    Group("billing", [Leaf("trial_days")]), Group("uploader", UPLOADER), Leaf("csrf_secret")]

  // The tags are words.

  lemma WordsAToB()
    ensures Word("access_key") && Word("access_secret") && Word("api_key") && Word("app_url")
    ensures Word("audience") && Word("auth") && Word("billing") && Word("bucket") && Word("burst_interval")
  {
  }

  lemma WordsC()
    ensures Word("client_id") && Word("client_secret") && Word("cloudflare_bucket_domain") && Word("code")
    ensures Word("csrf_secret")
  {
  }

  lemma WordsDToE()
    ensures Word("database") && Word("db_host") && Word("db_name") && Word("db_password") && Word("db_port")
    ensures Word("db_ssl_mode") && Word("db_user") && Word("dsn") && Word("email") && Word("enabled")
    ensures Word("endpoint") && Word("env")
  {
  }

  lemma WordsFToK()
    ensures Word("frontend") && Word("google") && Word("google_auth") && Word("grafana") && Word("hash_secret")
    ensures Word("headers") && Word("http") && Word("is_enabled") && Word("jwt") && Word("key")
  {
  }

  lemma WordsLToO()
    ensures Word("log_level") && Word("log_operations") && Word("log_queries") && Word("logging")
    ensures Word("metrics") && Word("mode") && Word("otel")
  {
  }

  lemma WordsPToQ()
    ensures Word("password") && Word("port") && Word("postgres") && Word("private_key") && Word("provider")
    ensures Word("public_key") && Word("query_timeout")
  {
  }

  lemma WordsRToS()
    ensures Word("rate_limit") && Word("redirect_url") && Word("redis") && Word("region")
    ensures Word("requests_per_minute") && Word("s3") && Word("scopes") && Word("secret_key") && Word("sender")
    ensures Word("sender_name") && Word("ses") && Word("swagger")
  {
  }

  lemma WordsTToU()
    ensures Word("trial_days") && Word("type") && Word("tz") && Word("uploader") && Word("use_tls")
    ensures Word("username")
  {
  }

  lemma LeavesSound(nodes: seq<Node>)
    requires LevelSound(nodes) && forall k | 0 <= k < |nodes| :: nodes[k].Leaf?
    ensures Sound(nodes)
  {
  }

  lemma OneSound(n: Node)
    requires Word(n.tag) && (n.Group? ==> Sound(n.nodes))
    ensures Sound([n])
  {
  }

  // The sections, each with its levels.

  lemma RateLimitSound()
    ensures Sound(RATE_LIMIT)
  {
    hide Word;
    WordsAToB();
    WordsFToK();
    WordsRToS();
    WordsTToU();
    LeavesSound(RATE_LIMIT);
  }

  lemma HttpSound()
    ensures Sound(HTTP)
  {
    hide Word, RATE_LIMIT;
    WordsDToE();
    WordsLToO();
    WordsPToQ();
    WordsRToS();
    WordsTToU();
    RateLimitSound();
    LeavesSound(METRICS);
    OneSound(Leaf("port"));
  }

  lemma OtelSound()
    ensures Sound(OTEL)
  {
    hide Word;
    WordsDToE();
    WordsFToK();
    WordsPToQ();
    WordsTToU();
    LeavesSound(GRAFANA);
  }

  lemma GoogleSound()
    ensures Sound(GOOGLE)
  {
    hide Word;
    WordsC();
    WordsRToS();
    LeavesSound(GOOGLE);
  }

  lemma AuthSound()
    ensures Sound(AUTH)
  {
    hide Word, GOOGLE;
    WordsAToB();
    WordsFToK();
    WordsPToQ();
    GoogleSound();
    LeavesSound(JWT);
  }

  lemma DatabaseSound()
    ensures Sound(DATABASE)
  {
    hide Word;
    WordsDToE();
    WordsLToO();
    WordsPToQ();
    WordsRToS();
    LeavesSound(POSTGRES);
    OneSound(Leaf("dsn"));
  }

  lemma EmailSound()
    ensures Sound(EMAIL)
  {
    hide Word;
    WordsAToB();
    WordsPToQ();
    WordsRToS();
    LeavesSound(SES);
  }

  lemma S3Apart(i: nat, j: nat)
    requires i < j < |S3|
    ensures TagsApart(S3[i], S3[j])
  {
    hide Word;
  }

  lemma UploaderSound()
    ensures Sound(UPLOADER)
  {
    hide Word, TagsApart;
    WordsAToB();
    WordsC();
    WordsDToE();
    WordsLToO();
    WordsRToS();
    WordsTToU();
    forall i, j | 0 <= i < j < |S3| ensures TagsApart(S3[i], S3[j]) {
      S3Apart(i, j);
    }
    LeavesSound(S3);
    OneSound(Group("s3", S3));
  }

  lemma FirstRootApart(i: nat, j: nat)
    requires i < j < |CONFIG| && i < 4
    ensures TagsApart(CONFIG[i], CONFIG[j])
  {
    hide Word, HTTP, OTEL, AUTH, DATABASE, EMAIL, UPLOADER;
  }

  lemma NextRootApart(i: nat, j: nat)
    requires i < j < |CONFIG| && 4 <= i < 9
    ensures TagsApart(CONFIG[i], CONFIG[j])
  {
    hide Word, HTTP, OTEL, AUTH, DATABASE, EMAIL, UPLOADER;
  }

  lemma LaterRootApart(i: nat, j: nat)
    requires i < j < |CONFIG| && 9 <= i < 13
    ensures TagsApart(CONFIG[i], CONFIG[j])
  {
    hide Word, HTTP, OTEL, AUTH, DATABASE, EMAIL, UPLOADER;
  }

  lemma LastRootApart(i: nat, j: nat)
    requires i < j < |CONFIG| && 13 <= i
    ensures TagsApart(CONFIG[i], CONFIG[j])
  {
    hide Word, HTTP, OTEL, AUTH, DATABASE, EMAIL, UPLOADER;
  }

  lemma ConfigSound()
    ensures Sound(CONFIG)
  {
    hide Word, TagsApart, HTTP, OTEL, AUTH, DATABASE, EMAIL, UPLOADER;
    WordsAToB();
    WordsC();
    WordsDToE();
    WordsFToK();
    WordsLToO();
    WordsPToQ();
    WordsRToS();
    WordsTToU();
    forall i, j | 0 <= i < j < |CONFIG| ensures TagsApart(CONFIG[i], CONFIG[j]) {
      if i < 4 {
        FirstRootApart(i, j);
      } else if i < 9 {
        NextRootApart(i, j);
      } else if i < 13 {
        LaterRootApart(i, j);
      } else {
        LastRootApart(i, j);
      }
    }
    HttpSound();
    OtelSound();
    AuthSound();
    DatabaseSound();
    EmailSound();
    UploaderSound();
    OneSound(Leaf("code"));
    OneSound(Leaf("mode"));
    OneSound(Leaf("app_url"));
    OneSound(Leaf("hash_secret"));
    OneSound(Leaf("trial_days"));
  }

  /** For every value of the declared configuration: the exported file has one line for each
      binding, in the same order, and distinct settings have distinct paths and variables. */
  lemma DeclaredConfigAgrees(fs: seq<Field>)
    requires HasShape(fs, CONFIG)
    ensures ExportVisits(fs, [], 0, "") == BindVisits(fs, [], 0, "")
    ensures Exported(Ptr(Struct(fs)), [], "") == Lines(BindVisits(fs, [], 0, ""))
    ensures DistinctPaths(BindVisits(fs, [], 0, ""))
    ensures DistinctVariables(BindVisits(fs, [], 0, ""))
  {
    hide *;
    ConfigSound();
    SoundTree(fs, CONFIG);
    WalksAgreeExactly(fs, [], 0, "");
    CleanTreesAgree(fs);
    WellNamedMeans(fs);
    PathsDistinct(fs, [], 0, "");
    VariablesDistinct(fs, [], 0, "");
  }
}

/** The validator that pins the fleet-hardening policy and its JSON Schema to one document
    (scripts/lib/fleet-hardening-policy.mjs). */
module FleetHardening {
  import opened Collections
  import opened Wrappers

  /** A parsed JSON value; the order of an object's members is not observed. */
  datatype Json =
    | Null
    | Bool(flag: bool)
    | Num(number: real)
    | Str(text: string)
    | Arr(items: seq<Json>)
    | Obj(members: map<string, Json>)

  /** The expected document: scalars and objects, with the names of an object in sorted order. */
  datatype Expected = Scalar(value: Json) | Node(children: seq<(string, Expected)>)

  /** Scalars are not containers; the names of a node are distinct. */
  ghost predicate WellFormed(e: Expected)
    decreases e
  {
    match e
    case Scalar(v) => !v.Arr? && !v.Obj?
    case Node(c) =>
      && (forall i, j :: 0 <= i < j < |c| ==> c[i].0 != c[j].0)
      && (forall i :: 0 <= i < |c| ==> WellFormed(c[i].1))
  }

  function NameSet(c: seq<(string, Expected)>): set<string> {
    set i | 0 <= i < |c| :: c[i].0
  }

  /** The names as JSON strings. */
  function StrNames(c: seq<(string, Expected)>): seq<Json> {
    seq(|c|, i requires 0 <= i < |c| => Str(c[i].0))
  }

  /** The document an expected tree stands for. */
  function JsonOf(e: Expected): Json
    decreases e, 1
  {
    match e
    case Scalar(v) => v
    case Node(c) => Obj(MembersOf(e, |c|))
  }

  function MembersOf(e: Expected, n: nat): map<string, Json>
    requires e.Node? && n <= |e.children|
    decreases e, 0, n
  {
    if n == 0 then map[]
    else MembersOf(e, n - 1)[e.children[n - 1].0 := JsonOf(e.children[n - 1].1)]
  }

  // ---- findings ----

  datatype Reason =
    | NotEqual | NotAnObject | WrongKeys
    | WrongConst | TypeNotObject | AdditionalAllowed | WrongRequired | NoProperties | WrongProperties
    | WrongDraft | WrongId

  datatype Finding = Finding(path: seq<string>, reason: Reason)

  function When(bad: bool, path: seq<string>, reason: Reason): seq<Finding> {
    if bad then [Finding(path, reason)] else []
  }

  /** `node?.name` */
  function Field(node: Option<Json>, name: string): Option<Json> {
    if node.Some? && node.value.Obj? && name in node.value.members then Some(node.value.members[name]) else None
  }

  // ---- the document ----

  function ExactFindings(actual: Option<Json>, e: Expected, path: seq<string>): seq<Finding>
    decreases e, 1
  {
    match e
    case Scalar(v) => When(actual != Some(v), path, NotEqual)
    case Node(c) =>
      if actual.None? || !actual.value.Obj? then [Finding(path, NotAnObject)]
      else When(actual.value.members.Keys != NameSet(c), path, WrongKeys)
           + ExactChildren(actual, e, path, |c|)
  }

  /** The findings in the first `n` children. */
  function ExactChildren(actual: Option<Json>, e: Expected, path: seq<string>, n: nat): seq<Finding>
    requires e.Node? && n <= |e.children|
    decreases e, 0, n
  {
    if n == 0 then []
    else
      var (name, child) := e.children[n - 1];
      ExactChildren(actual, e, path, n - 1) + ExactFindings(Field(actual, name), child, path + [name])
  }

  // ---- the schema ----

  /** A decimal numeral, the key of an array element. */
  function Decimal(n: nat): string {
    if n < 10 then [('0' as int + n) as char] else Decimal(n / 10) + [('0' as int + n % 10) as char]
  }

  function Indexed(items: seq<Json>, n: nat): map<string, Json>
    requires n <= |items|
  {
    if n == 0 then map[] else Indexed(items, n - 1)[Decimal(n - 1) := items[n - 1]]
  }

  /** What `Object.keys` and indexing see of `properties`; an array counts as an object here. */
  function PropertiesSeen(properties: Option<Json>): Option<map<string, Json>> {
    match properties
    case Some(Obj(members)) => Some(members)
    case Some(Arr(items)) => Some(Indexed(items, |items|))
    case _ => None
  }

  /** `required` lists exactly the names: the sorted lists are equal. */
  predicate RequiredMatches(required: Option<Json>, c: seq<(string, Expected)>) {
    required.Some? && required.value.Arr? && multiset(required.value.items) == multiset(StrNames(c))
  }

  function KeywordFindings(schema: Option<Json>, c: seq<(string, Expected)>, path: seq<string>): seq<Finding> {
    When(Field(schema, "type") != Some(Str("object")), path, TypeNotObject)
    + When(Field(schema, "additionalProperties") != Some(Bool(false)), path, AdditionalAllowed)
    + When(!RequiredMatches(Field(schema, "required"), c), path, WrongRequired)
  }

  function SchemaFindings(schema: Option<Json>, e: Expected, path: seq<string>): seq<Finding>
    decreases e, 1
  {
    match e
    case Scalar(v) => When(Field(schema, "const") != Some(v), path, WrongConst)
    case Node(c) =>
      var properties := PropertiesSeen(Field(schema, "properties"));
      if properties.None? then KeywordFindings(schema, c, path) + [Finding(path, NoProperties)]
      else KeywordFindings(schema, c, path) + When(properties.value.Keys != NameSet(c), path, WrongProperties)
           + SchemaChildren(properties.value, e, path, |c|)
  }

  function SchemaChildren(properties: map<string, Json>, e: Expected, path: seq<string>, n: nat): seq<Finding>
    requires e.Node? && n <= |e.children|
    decreases e, 0, n
  {
    if n == 0 then []
    else
      var (name, child) := e.children[n - 1];
      var node := if name in properties then Some(properties[name]) else None;
      SchemaChildren(properties, e, path, n - 1) + SchemaFindings(node, child, path + [name])
  }

  // ---- the code, pushing into one shared list ----

  class Findings {
    var errors: seq<Finding>

    constructor ()
      ensures errors == []
    {
      errors := [];
    }

    method Push(path: seq<string>, reason: Reason)
      modifies this
      ensures errors == old(errors) + [Finding(path, reason)]
    {
      errors := errors + [Finding(path, reason)];
    }

    method ValidateExactValue(actual: Option<Json>, e: Expected, path: seq<string>)
      modifies this
      ensures errors == old(errors) + ExactFindings(actual, e, path)
      decreases e
    {
      match e
      case Scalar(v) =>
        if actual != Some(v) {
          Push(path, NotEqual);
        }
      case Node(c) =>
        if actual.None? || !actual.value.Obj? {
          Push(path, NotAnObject);
          return;
        }
        ghost var start := errors;
        if actual.value.members.Keys != NameSet(c) {
          Push(path, WrongKeys);
        }
        ghost var here := When(actual.value.members.Keys != NameSet(c), path, WrongKeys);
        assert errors == start + here;
        for i := 0 to |c|
          invariant errors == start + (here + ExactChildren(actual, e, path, i))
        {
          ghost var before := ExactChildren(actual, e, path, i);
          var (name, child) := c[i];
          ValidateExactValue(Field(actual, name), child, path + [name]);
          ghost var more := ExactFindings(Field(actual, name), child, path + [name]);
          Reassociate(start, here + before, more);
          Reassociate(here, before, more);
        }
    }

    /** The three keyword checks at the head of an object node. */
    method ValidateKeywords(schema: Option<Json>, c: seq<(string, Expected)>, path: seq<string>)
      modifies this
      ensures errors == old(errors) + KeywordFindings(schema, c, path)
    {
      if Field(schema, "type") != Some(Str("object")) {
        Push(path, TypeNotObject);
      }
      if Field(schema, "additionalProperties") != Some(Bool(false)) {
        Push(path, AdditionalAllowed);
      }
      if !RequiredMatches(Field(schema, "required"), c) {
        Push(path, WrongRequired);
      }
    }

    method ValidateSchemaNode(schema: Option<Json>, e: Expected, path: seq<string>)
      modifies this
      ensures errors == old(errors) + SchemaFindings(schema, e, path)
      decreases e
    {
      match e
      case Scalar(v) =>
        if Field(schema, "const") != Some(v) {
          Push(path, WrongConst);
        }
      case Node(c) =>
        ghost var start := errors;
        ghost var keywords := KeywordFindings(schema, c, path);
        ValidateKeywords(schema, c, path);
        var properties := PropertiesSeen(Field(schema, "properties"));
        if properties.None? {
          Push(path, NoProperties);
          return;
        }
        var wrong := properties.value.Keys != NameSet(c);
        if wrong {
          Push(path, WrongProperties);
        }
        ghost var here := keywords + When(wrong, path, WrongProperties);
        assert errors == start + here;
        for i := 0 to |c|
          invariant errors == start + (here + SchemaChildren(properties.value, e, path, i))
        {
          ghost var before := SchemaChildren(properties.value, e, path, i);
          var (name, child) := c[i];
          var node := if name in properties.value then Some(properties.value[name]) else None;
          ValidateSchemaNode(node, child, path + [name]);
          ghost var more := SchemaFindings(node, child, path + [name]);
          Reassociate(start, here + before, more);
          Reassociate(here, before, more);
        }
        assert here + SchemaChildren(properties.value, e, path, |c|) == SchemaFindings(schema, e, path);
    }
  }

  // ---- the canonical document ----

  // Names and values are joined from short pieces: the verifier reasons about each character of a
  // literal, and long ones make every proof about these trees expensive.

  function MetadataTree(): Expected {
    Node([
      ("name", Scalar(Str("ores-fleet" + "-hardening"))),
      ("version", Scalar(Str("1.0.0")))])
  }

  function SqlTree(): Expected {
    Node([
      ("authority", Scalar(Str("organizati" + "on-local-w" + "ith-centra" + "l-mirror"))),
      ("diesel_mod" + "el", Scalar(Str("code-first"))),
      ("migration_" + "registry", Scalar(Str("declarativ" + "e-migratio" + "ns/declara" + "tive-postg" + "res-migrat" + "e.rs"))),
      ("namespace_" + "pattern", Scalar(Str("^[a-z][a-z" + "0-9_]{0,62" + "}$"))),
      ("seaorm_mod" + "el", Scalar(Str("database-f" + "irst")))])
  }

  function KubernetesTree(): Expected {
    Node([
      ("cluster_re" + "pository", Scalar(Str("ORESoftwar" + "e/k8s-clus" + "ter"))),
      ("deployment" + "_model", Scalar(Str("gitops"))),
      ("shared_lib" + "rary_repos" + "itory", Scalar(Str("ORESoftwar" + "e/k8s-libs" + "-and-share" + "d-defs")))])
  }

  function RepositoryTree(): Expected {
    Node([
      ("binding_pa" + "th", Scalar(Str(".ores/repo" + "sitory-har" + "dening.v1." + "json"))),
      ("fail_close" + "d", Scalar(Bool(true)))])
  }

  function SupplyChainTree(): Expected {
    Node([
      ("content_sh" + "a256_requi" + "red", Scalar(Bool(true))),
      ("source_rev" + "ision_requ" + "ired", Scalar(Bool(true)))])
  }

  function SpecTree(): Expected {
    Node([
      ("kubernetes", KubernetesTree()),
      ("repository", RepositoryTree()),
      ("sql", SqlTree()),
      ("supply_cha" + "in", SupplyChainTree())])
  }

  /** `fleetHardeningPolicyV1`. */
  function CanonicalTree(): Expected {
    Node([
      ("$schema", Scalar(Str("./hardenin" + "g-fleet.v1" + ".schema.js" + "on"))),
      ("api_versio" + "n", Scalar(Str("ores.dev/f" + "leet-harde" + "ning/v1"))),
      ("kind", Scalar(Str("FleetHarde" + "ningPolicy"))),
      ("metadata", MetadataTree()),
      ("spec", SpecTree())])
  }

  function DraftUri(): Json {
    Str("https://js" + "on-schema." + "org/draft/" + "2020-12/sc" + "hema")
  }

  function CanonicalId(): Json {
    Str("https://gi" + "thub.com/O" + "RESoftware" + "/ores-gh-b" + "ots/blob/m" + "ain/config"
        + "/hardening" + "-fleet.v1." + "schema.jso" + "n")
  }

  /** The draft and the identifier a schema declares. */
  function IdentityFindings(schema: Option<Json>, draft: Json, id: Json): seq<Finding> {
    When(Field(schema, "$schema") != Some(draft), ["schema"], WrongDraft)
    + When(Field(schema, "$id") != Some(id), ["schema"], WrongId)
  }

  function DocumentFindings(policy: Option<Json>, schema: Option<Json>, tree: Expected): seq<Finding> {
    ExactFindings(policy, tree, ["policy"])
    + IdentityFindings(schema, DraftUri(), CanonicalId())
    + SchemaFindings(schema, tree, ["schema"])
  }

  method ValidateIdentity(findings: Findings, schema: Option<Json>, draft: Json, id: Json)
    modifies findings
    ensures findings.errors == old(findings.errors) + IdentityFindings(schema, draft, id)
  {
    if Field(schema, "$schema") != Some(draft) {
      findings.Push(["schema"], WrongDraft);
    }
    if Field(schema, "$id") != Some(id) {
      findings.Push(["schema"], WrongId);
    }
  }

  /** `validateFleetHardeningDocuments`, for any expected tree in place of the canonical one. */
  method ValidateDocuments(policy: Option<Json>, schema: Option<Json>, tree: Expected) returns (errors: seq<Finding>)
    ensures errors == DocumentFindings(policy, schema, tree)
  {
    var findings := new Findings();
    findings.ValidateExactValue(policy, tree, ["policy"]);
    ValidateIdentity(findings, schema, DraftUri(), CanonicalId());
    findings.ValidateSchemaNode(schema, tree, ["schema"]);
    errors := findings.errors;
  }
}

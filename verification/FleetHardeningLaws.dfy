/** A pair of documents without findings is pinned: the policy is the canonical document, and the schema
    accepts no other (JSON Schema 2020-12 Validation sections 6.1.1, 6.1.3 and 6.5.3, Core sections
    10.3.2.1 and 10.3.2.3). */
module FleetHardeningLaws {
  import opened Wrappers
  import opened FleetHardening

  // ---- what a schema accepts ----

  /** One name of the `type` keyword. */
  predicate TypeNamed(name: string, doc: Json) {
    match doc
    case Null => name == "null"
    case Bool(_) => name == "boolean"
    case Num(x) => name == "number" || (name == "integer" && x == x.Floor as real)
    case Str(_) => name == "string"
    case Arr(_) => name == "array"
    case Obj(_) => name == "object"
  }

  predicate TypeAllows(keyword: Option<Json>, doc: Json) {
    match keyword
    case Some(Str(name)) => TypeNamed(name, doc)
    case Some(Arr(names)) => exists n :: n in names && n.Str? && TypeNamed(n.text, doc)
    case _ => true
  }

  predicate ConstAllows(keyword: Option<Json>, doc: Json) {
    keyword.None? || keyword.value == doc
  }

  predicate RequiredAllows(keyword: Option<Json>, doc: Json) {
    doc.Obj? && keyword.Some? && keyword.value.Arr? ==>
      forall n :: n in keyword.value.items && n.Str? ==> n.text in doc.members
  }

  /** The subschemas that `properties` names; a value that is not an object names none. */
  function Subschemas(schema: Json): map<string, Json>
    requires schema.Obj?
  {
    if "properties" in schema.members && schema.members["properties"].Obj?
    then schema.members["properties"].members else map[]
  }

  /** The schema accepts the document, reading type, const, required, properties and
      additionalProperties. */
  ghost predicate Accepts(schema: Json, doc: Json)
    decreases schema
  {
    match schema
    case Bool(b) => b
    case Obj(m) =>
      && TypeAllows(Field(Some(schema), "type"), doc)
      && ConstAllows(Field(Some(schema), "const"), doc)
      && RequiredAllows(Field(Some(schema), "required"), doc)
      && (doc.Obj? ==>
            && (forall k :: k in Subschemas(schema) && k in doc.members ==>
                  Accepts(Subschemas(schema)[k], doc.members[k]))
            && ("additionalProperties" in m ==>
                  forall k :: k in doc.members && k !in Subschemas(schema) ==>
                    Accepts(m["additionalProperties"], doc.members[k])))
    case _ => true
  }

  // ---- the document is the expected one ----

  lemma NameSetGrows(c: seq<(string, Expected)>, n: nat)
    requires 0 < n <= |c|
    ensures NameSet(c[..n]) == NameSet(c[..n - 1]) + {c[n - 1].0}
  {
    assert c[..n] == c[..n - 1] + [c[n - 1]];
  }

  lemma {:induction false} MembersShape(e: Expected, n: nat)
    requires WellFormed(e) && e.Node? && n <= |e.children|
    ensures MembersOf(e, n).Keys == NameSet(e.children[..n])
    ensures forall i :: 0 <= i < n ==>
      e.children[i].0 in MembersOf(e, n) && MembersOf(e, n)[e.children[i].0] == JsonOf(e.children[i].1)
  {
    if n > 0 {
      MembersShape(e, n - 1);
      NameSetGrows(e.children, n);
    }
  }

  /** The members of the expected document, and nothing else. */
  lemma ExpectedMembers(e: Expected, members: map<string, Json>)
    requires WellFormed(e) && e.Node?
    ensures members == MembersOf(e, |e.children|) <==>
            && members.Keys == NameSet(e.children)
            && forall i :: 0 <= i < |e.children| ==>
                 e.children[i].0 in members && members[e.children[i].0] == JsonOf(e.children[i].1)
  {
    var c := e.children;
    MembersShape(e, |c|);
    assert c[..|c|] == c;
    var expected := MembersOf(e, |c|);
    if members.Keys == NameSet(c) && (forall i :: 0 <= i < |c| ==> c[i].0 in members && members[c[i].0] == JsonOf(c[i].1)) {
      forall k | k in members
        ensures k in expected && members[k] == expected[k]
      {
        var i :| 0 <= i < |c| && c[i].0 == k;
      }
    }
  }

  /** No finding about the document exactly when it is the expected one. */
  lemma {:induction false} NoFindingExactly(actual: Option<Json>, e: Expected, path: seq<string>)
    requires WellFormed(e)
    ensures ExactFindings(actual, e, path) == [] <==> actual == Some(JsonOf(e))
    decreases e, 1
  {
    if e.Node? && actual.Some? && actual.value.Obj? {
      var c, members := e.children, actual.value.members;
      NoChildFinding(actual, e, path, |c|);
      ExpectedMembers(e, members);
      assert ExactFindings(actual, e, path) == [] <==>
        members.Keys == NameSet(c) && ExactChildren(actual, e, path, |c|) == [];
    }
  }

  lemma {:induction false} NoChildFinding(actual: Option<Json>, e: Expected, path: seq<string>, n: nat)
    requires WellFormed(e) && e.Node? && n <= |e.children| && actual.Some? && actual.value.Obj?
    ensures ExactChildren(actual, e, path, n) == [] <==>
            forall i :: 0 <= i < n ==> Field(actual, e.children[i].0) == Some(JsonOf(e.children[i].1))
    decreases e, 0, n
  {
    if n > 0 {
      var (name, child) := e.children[n - 1];
      NoChildFinding(actual, e, path, n - 1);
      NoFindingExactly(Field(actual, name), child, path + [name]);
    }
  }

  // ---- the schema accepts nothing else ----

  lemma {:induction false} CleanChild(properties: map<string, Json>, e: Expected, path: seq<string>, n: nat, i: nat)
    requires e.Node? && i < n <= |e.children| && SchemaChildren(properties, e, path, n) == []
    ensures e.children[i].0 in properties
    ensures SchemaFindings(Some(properties[e.children[i].0]), e.children[i].1, path + [e.children[i].0]) == []
  {
    if i < n - 1 {
      CleanChild(properties, e, path, n - 1, i);
    } else {
      var (name, child) := e.children[i];
      assert SchemaFindings(if name in properties then Some(properties[name]) else None, child, path + [name]) == [];
      MissingIsFound(child, path + [name]);
    }
  }

  lemma MissingIsFound(e: Expected, path: seq<string>)
    ensures SchemaFindings(None, e, path) != []
  {
  }

  /** What a node without findings looks like. */
  lemma CleanNode(schema: Option<Json>, e: Expected, path: seq<string>)
    requires e.Node? && SchemaFindings(schema, e, path) == []
    ensures schema.Some? && schema.value.Obj?
    ensures Field(schema, "type") == Some(Str("object"))
    ensures Field(schema, "additionalProperties") == Some(Bool(false))
    ensures RequiredMatches(Field(schema, "required"), e.children)
    ensures var properties := PropertiesSeen(Field(schema, "properties"));
            properties.Some? && properties.value.Keys == NameSet(e.children)
            && SchemaChildren(properties.value, e, path, |e.children|) == []
  {
  }

  lemma RequiredNames(required: Json, c: seq<(string, Expected)>, i: nat)
    requires RequiredMatches(Some(required), c) && i < |c|
    ensures Str(c[i].0) in required.items
  {
    assert StrNames(c)[i] == Str(c[i].0);
    assert Str(c[i].0) in multiset(StrNames(c));
  }

  /** An accepted document is an object with exactly the expected names, and `properties` is an object
      unless there are none. */
  lemma AcceptedNames(schema: Json, e: Expected, path: seq<string>, doc: Json)
    requires e.Node? && SchemaFindings(Some(schema), e, path) == [] && Accepts(schema, doc)
    ensures doc.Obj? && doc.members.Keys == NameSet(e.children)
    ensures schema.Obj? && Subschemas(schema).Keys == NameSet(e.children)
  {
    var c := e.children;
    CleanNode(Some(schema), e, path);
    assert TypeAllows(Some(Str("object")), doc);
    var required := Field(Some(schema), "required").value;
    forall name | name in NameSet(c)
      ensures name in doc.members
    {
      var i :| 0 <= i < |c| && c[i].0 == name;
      RequiredNames(required, c, i);
    }
    forall name | name in doc.members
      ensures name in Subschemas(schema)
    {
      if name !in Subschemas(schema) {
        assert false;
      }
    }
  }

  /** The properties the validator goes through are the subschemas, unless they are an array. */
  lemma CleanSubschemas(schema: Json, e: Expected, path: seq<string>)
    requires e.Node? && e.children != [] && SchemaFindings(Some(schema), e, path) == [] && schema.Obj?
    requires Subschemas(schema).Keys == NameSet(e.children)
    ensures SchemaChildren(Subschemas(schema), e, path, |e.children|) == []
  {
    CleanNode(Some(schema), e, path);
    assert e.children[0].0 in Subschemas(schema);
  }

  /** A schema node without findings accepts at most the expected document. */
  lemma {:induction false} SchemaPins(schema: Option<Json>, e: Expected, path: seq<string>, doc: Json)
    requires WellFormed(e) && SchemaFindings(schema, e, path) == []
    ensures schema.Some? && schema.value.Obj?
    ensures Accepts(schema.value, doc) ==> doc == JsonOf(e)
    decreases e
  {
    match e
    case Scalar(v) =>
    case Node(c) =>
      CleanNode(schema, e, path);
      if Accepts(schema.value, doc) {
        AcceptedNames(schema.value, e, path, doc);
        var properties := Subschemas(schema.value);
        forall i | 0 <= i < |c|
          ensures doc.members[c[i].0] == JsonOf(c[i].1)
        {
          CleanSubschemas(schema.value, e, path);
          CleanChild(properties, e, path, |c|, i);
          assert Accepts(properties[c[i].0], doc.members[c[i].0]);
          SchemaPins(Some(properties[c[i].0]), c[i].1, path + [c[i].0], doc.members[c[i].0]);
        }
        ExpectedMembers(e, doc.members);
      }
  }

  // ---- exactly when it accepts the expected document ----

  /** The keywords the validator does not read at a node (a type beside a const, a const beside an object
      type, an array for `properties`) do not rule the expected document out. */
  ghost predicate Consistent(schema: Json, e: Expected)
    decreases e
  {
    match e
    case Scalar(v) => TypeAllows(Field(Some(schema), "type"), v)
    case Node(c) =>
      && schema.Obj?
      && ConstAllows(Field(Some(schema), "const"), JsonOf(e))
      && forall i :: 0 <= i < |c| ==>
           c[i].0 in Subschemas(schema) && Consistent(Subschemas(schema)[c[i].0], c[i].1)
  }

  lemma {:induction false} AcceptsExactly(schema: Json, e: Expected, path: seq<string>)
    requires WellFormed(e) && SchemaFindings(Some(schema), e, path) == []
    ensures Accepts(schema, JsonOf(e)) <==> Consistent(schema, e)
    decreases e
  {
    match e
    case Scalar(v) =>
      assert schema.Obj? && schema.members["const"] == v;
    case Node(c) =>
      CleanNode(Some(schema), e, path);
      var properties := Subschemas(schema);
      forall i | 0 <= i < |c| && c[i].0 in properties
        ensures ChildAccepts(properties, c[i].0, c[i].1) <==> Consistent(properties[c[i].0], c[i].1)
      {
        CleanChild(properties, e, path, |c|, i);
        AcceptsExactly(properties[c[i].0], c[i].1, path + [c[i].0]);
      }
      NodeAcceptsExactly(schema, e, path);
      ConsistentByChildren(schema, e);
  }

  lemma ConsistentByChildren(schema: Json, e: Expected)
    requires schema.Obj? && e.Node?
    requires forall i :: 0 <= i < |e.children| && e.children[i].0 in Subschemas(schema) ==>
      (ChildAccepts(Subschemas(schema), e.children[i].0, e.children[i].1)
       <==> Consistent(Subschemas(schema)[e.children[i].0], e.children[i].1))
    ensures Consistent(schema, e) <==>
              ConstAllows(Field(Some(schema), "const"), JsonOf(e))
              && forall i :: 0 <= i < |e.children| ==> ChildAccepts(Subschemas(schema), e.children[i].0, e.children[i].1)
  {
  }

  /** The subschema of this name accepts what is expected there. */
  ghost predicate ChildAccepts(properties: map<string, Json>, name: string, child: Expected) {
    name in properties && Accepts(properties[name], JsonOf(child))
  }

  lemma NodeAcceptsExactly(schema: Json, e: Expected, path: seq<string>)
    requires WellFormed(e) && e.Node? && SchemaFindings(Some(schema), e, path) == [] && schema.Obj?
    ensures Accepts(schema, JsonOf(e)) <==>
              ConstAllows(Field(Some(schema), "const"), JsonOf(e))
              && forall i :: 0 <= i < |e.children| ==> ChildAccepts(Subschemas(schema), e.children[i].0, e.children[i].1)
  {
    if Accepts(schema, JsonOf(e)) {
      AcceptingChildren(schema, e, path);
    }
    if ConstAllows(Field(Some(schema), "const"), JsonOf(e))
      && (forall i :: 0 <= i < |e.children| ==> ChildAccepts(Subschemas(schema), e.children[i].0, e.children[i].1)) {
      ConsistentNodeAccepts(schema, e, path);
    }
  }

  lemma AcceptingChildren(schema: Json, e: Expected, path: seq<string>)
    requires WellFormed(e) && e.Node? && SchemaFindings(Some(schema), e, path) == [] && schema.Obj?
    requires Accepts(schema, JsonOf(e))
    ensures forall i :: 0 <= i < |e.children| ==> ChildAccepts(Subschemas(schema), e.children[i].0, e.children[i].1)
  {
    var c, doc, properties := e.children, JsonOf(e), Subschemas(schema);
    ExpectedMembers(e, doc.members);
    AcceptedNames(schema, e, path, doc);
    forall i | 0 <= i < |c|
      ensures ChildAccepts(properties, c[i].0, c[i].1)
    {
      assert Accepts(properties[c[i].0], doc.members[c[i].0]);
    }
  }

  lemma RequiredHolds(required: Option<Json>, c: seq<(string, Expected)>, doc: Json)
    requires RequiredMatches(required, c) && doc.Obj? && doc.members.Keys == NameSet(c)
    ensures RequiredAllows(required, doc)
  {
    forall n | n in required.value.items && n.Str?
      ensures n.text in doc.members
    {
      assert n in multiset(StrNames(c));
      assert n in StrNames(c);
      var i :| 0 <= i < |c| && StrNames(c)[i] == n;
    }
  }

  lemma MemberAccepted(properties: map<string, Json>, c: seq<(string, Expected)>, members: map<string, Json>, k: string)
    requires k in members && members.Keys == NameSet(c)
    requires forall i :: 0 <= i < |c| ==> c[i].0 in members && members[c[i].0] == JsonOf(c[i].1)
    requires forall i :: 0 <= i < |c| ==> ChildAccepts(properties, c[i].0, c[i].1)
    ensures k in properties && Accepts(properties[k], members[k])
  {
    var i :| 0 <= i < |c| && c[i].0 == k;
  }

  /** An object node accepts the expected document when its children accept theirs. */
  lemma ConsistentNodeAccepts(schema: Json, e: Expected, path: seq<string>)
    requires WellFormed(e) && e.Node? && SchemaFindings(Some(schema), e, path) == []
    requires schema.Obj? && ConstAllows(Field(Some(schema), "const"), JsonOf(e))
    requires forall i :: 0 <= i < |e.children| ==> ChildAccepts(Subschemas(schema), e.children[i].0, e.children[i].1)
    ensures Accepts(schema, JsonOf(e))
  {
    var c, doc := e.children, JsonOf(e);
    CleanNode(Some(schema), e, path);
    ExpectedMembers(e, doc.members);
    forall k | k in doc.members
      ensures k in Subschemas(schema) && Accepts(Subschemas(schema)[k], doc.members[k])
    {
      MemberAccepted(Subschemas(schema), c, doc.members, k);
    }
    RequiredHolds(Field(Some(schema), "required"), c, doc);
  }

  /** A schema without findings may accept nothing at all: beside the const the type is not read. */
  lemma CleanSchemaMayAcceptNothing(doc: Json)
    ensures var e := Scalar(Bool(true));
            var schema := Obj(map["const" := Bool(true), "type" := Str("string")]);
            SchemaFindings(Some(schema), e, ["schema"]) == [] && !Accepts(schema, doc)
  {
  }

  // ---- the const-only schema ----

  /** The schema that spells the expected tree out. */
  function ConstSchema(e: Expected): Json
    decreases e, 1
  {
    match e
    case Scalar(v) => Obj(map["const" := v])
    case Node(c) =>
      Obj(map["type" := Str("object"), "additionalProperties" := Bool(false),
              "required" := Arr(StrNames(c)), "properties" := Obj(ConstProperties(e, |c|))])
  }

  function ConstProperties(e: Expected, n: nat): map<string, Json>
    requires e.Node? && n <= |e.children|
    decreases e, 0, n
  {
    if n == 0 then map[]
    else ConstProperties(e, n - 1)[e.children[n - 1].0 := ConstSchema(e.children[n - 1].1)]
  }

  lemma {:induction false} ConstPropertiesKeys(e: Expected, n: nat)
    requires e.Node? && n <= |e.children|
    ensures ConstProperties(e, n).Keys == NameSet(e.children[..n])
  {
    if n > 0 {
      ConstPropertiesKeys(e, n - 1);
      NameSetGrows(e.children, n);
    }
  }

  lemma {:induction false} ConstPropertiesAt(e: Expected, n: nat, i: nat)
    requires WellFormed(e) && e.Node? && i < n <= |e.children|
    ensures var (name, child) := e.children[i];
            name in ConstProperties(e, n) && ConstProperties(e, n)[name] == ConstSchema(child)
  {
    if i < n - 1 {
      ConstPropertiesAt(e, n - 1, i);
      assert e.children[i].0 != e.children[n - 1].0;
    }
  }

  lemma ConstPropertiesShape(e: Expected, n: nat)
    requires WellFormed(e) && e.Node? && n <= |e.children|
    ensures ConstProperties(e, n).Keys == NameSet(e.children[..n])
    ensures forall i :: 0 <= i < n ==>
      e.children[i].0 in ConstProperties(e, n) && ConstProperties(e, n)[e.children[i].0] == ConstSchema(e.children[i].1)
  {
    ConstPropertiesKeys(e, n);
    forall i | 0 <= i < n
      ensures e.children[i].0 in ConstProperties(e, n)
              && ConstProperties(e, n)[e.children[i].0] == ConstSchema(e.children[i].1)
    {
      ConstPropertiesAt(e, n, i);
    }
  }

  lemma ConstNodeHead(e: Expected, path: seq<string>)
    requires WellFormed(e) && e.Node?
    ensures KeywordFindings(Some(ConstSchema(e)), e.children, path) == []
    ensures Field(Some(ConstSchema(e)), "const") == None
    ensures Field(Some(ConstSchema(e)), "properties") == Some(Obj(ConstProperties(e, |e.children|)))
    ensures ConstProperties(e, |e.children|).Keys == NameSet(e.children)
  {
    var c, schema := e.children, ConstSchema(e);
    ConstPropertiesShape(e, |c|);
    assert c[..|c|] == c;
    assert Field(Some(schema), "type") == Some(Str("object"));
    assert Field(Some(schema), "additionalProperties") == Some(Bool(false));
    assert Field(Some(schema), "required") == Some(Arr(StrNames(c)));
  }

  /** The const-only schema of a tree has no findings and is consistent with it. */
  lemma {:induction false} ConstSchemaIsClean(e: Expected, path: seq<string>)
    requires WellFormed(e)
    ensures SchemaFindings(Some(ConstSchema(e)), e, path) == [] && Consistent(ConstSchema(e), e)
    decreases e, 1
  {
    match e
    case Scalar(v) =>
    case Node(c) =>
      ConstNodeHead(e, path);
      var properties := ConstProperties(e, |c|);
      ConstChildrenAreClean(e, properties, path, |c|);
      assert Subschemas(ConstSchema(e)) == properties;
  }

  lemma {:induction false} ConstChildrenAreClean(e: Expected, properties: map<string, Json>, path: seq<string>, n: nat)
    requires WellFormed(e) && e.Node? && n <= |e.children| && properties == ConstProperties(e, |e.children|)
    ensures SchemaChildren(properties, e, path, n) == []
    ensures forall i :: 0 <= i < n ==>
      e.children[i].0 in properties && Consistent(properties[e.children[i].0], e.children[i].1)
    decreases e, 0, n
  {
    if n > 0 {
      ConstChildrenAreClean(e, properties, path, n - 1);
      ConstPropertiesShape(e, |e.children|);
      ConstSchemaIsClean(e.children[n - 1].1, path + [e.children[n - 1].0]);
    }
  }

  // ---- the validator ----

  /** A schema with its draft and identifier declared. */
  function Identified(schema: Json): Json
    requires schema.Obj?
  {
    Obj(schema.members["$schema" := DraftUri()]["$id" := CanonicalId()])
  }

  /** At an object node these keywords are all the validator reads. */
  lemma SameKeywordsSameFindings(a: Option<Json>, b: Option<Json>, e: Expected, path: seq<string>)
    requires e.Node?
    requires Field(a, "type") == Field(b, "type") && Field(a, "required") == Field(b, "required")
    requires Field(a, "properties") == Field(b, "properties")
    requires Field(a, "additionalProperties") == Field(b, "additionalProperties")
    ensures SchemaFindings(a, e, path) == SchemaFindings(b, e, path)
  {
  }

  lemma SameKeywordsSameConsistency(a: Json, b: Json, e: Expected)
    requires a.Obj? && b.Obj? && e.Node?
    requires Field(Some(a), "const") == Field(Some(b), "const") && Subschemas(a) == Subschemas(b)
    ensures Consistent(a, e) <==> Consistent(b, e)
  {
  }

  lemma SameSubschemas(a: Json, b: Json)
    requires a.Obj? && b.Obj? && Field(Some(a), "properties") == Field(Some(b), "properties")
    ensures Subschemas(a) == Subschemas(b)
  {
  }

  lemma KeywordKept(schema: Json, name: string)
    requires schema.Obj? && name != "$schema" && name != "$id"
    ensures Field(Some(Identified(schema)), name) == Field(Some(schema), name)
  {
  }

  lemma KeywordsKept(schema: Json)
    requires schema.Obj?
    ensures var identified := Some(Identified(schema));
            Field(identified, "type") == Field(Some(schema), "type")
            && Field(identified, "required") == Field(Some(schema), "required")
            && Field(identified, "properties") == Field(Some(schema), "properties")
            && Field(identified, "additionalProperties") == Field(Some(schema), "additionalProperties")
            && Field(identified, "const") == Field(Some(schema), "const")
  {
    assert "$schema"[0] == '$' && "$id"[0] == '$' && "additionalProperties"[0] == 'a';
    assert "const"[0] == 'c' && "type"[0] == 't' && "required"[0] == 'r' && "properties"[0] == 'p';
    KeywordKept(schema, "type");
    KeywordKept(schema, "required");
    KeywordKept(schema, "properties");
    KeywordKept(schema, "additionalProperties");
    KeywordKept(schema, "const");
  }

  /** Declaring them changes nothing else. */
  lemma IdentifiedIsTheSame(schema: Json, e: Expected, path: seq<string>)
    requires schema.Obj? && e.Node?
    ensures SchemaFindings(Some(Identified(schema)), e, path) == SchemaFindings(Some(schema), e, path)
    ensures Consistent(Identified(schema), e) <==> Consistent(schema, e)
  {
    var identified := Identified(schema);
    KeywordsKept(schema);
    SameSubschemas(identified, schema);
    SameKeywordsSameConsistency(identified, schema, e);
    SameKeywordsSameFindings(Some(identified), Some(schema), e, path);
  }

  /** A pair without findings is pinned: the policy is the expected document, and the schema accepts no
      other. */
  lemma PinnedPair(policy: Option<Json>, schema: Option<Json>, tree: Expected, doc: Json)
    requires WellFormed(tree) && DocumentFindings(policy, schema, tree) == []
    ensures policy == Some(JsonOf(tree))
    ensures schema.Some? && (Accepts(schema.value, doc) ==> doc == JsonOf(tree))
    ensures Accepts(schema.value, JsonOf(tree)) <==> Consistent(schema.value, tree)
  {
    NoFindingExactly(policy, tree, ["policy"]);
    SchemaPins(schema, tree, ["schema"], doc);
    AcceptsExactly(schema.value, tree, ["schema"]);
  }

  /** Conversely the expected document and its identified const-only schema have no findings, and that
      schema accepts the document. */
  lemma CanonicalPairPasses(tree: Expected)
    requires WellFormed(tree) && tree.Node?
    ensures var schema := Identified(ConstSchema(tree));
            DocumentFindings(Some(JsonOf(tree)), Some(schema), tree) == [] && Accepts(schema, JsonOf(tree))
  {
    var schema := Identified(ConstSchema(tree));
    NoFindingExactly(Some(JsonOf(tree)), tree, ["policy"]);
    ConstSchemaIsClean(tree, ["schema"]);
    IdentifiedIsTheSame(ConstSchema(tree), tree, ["schema"]);
    IdentityDeclared(ConstSchema(tree), DraftUri(), CanonicalId());
    AcceptsExactly(schema, tree, ["schema"]);
  }

  lemma IdentityDeclared(schema: Json, draft: Json, id: Json)
    requires schema.Obj?
    ensures IdentityFindings(Some(Obj(schema.members["$schema" := draft]["$id" := id])), draft, id) == []
  {
  }

  // ---- the canonical tree ----

  lemma SqlWellFormed()
    ensures WellFormed(SqlTree())
  {
    var sql := SqlTree().children;
    assert sql[0].0[0] == 'a' && sql[1].0[0] == 'd' && sql[2].0[0] == 'm' && sql[3].0[0] == 'n' && sql[4].0[0] == 's';
  }

  lemma KubernetesWellFormed()
    ensures WellFormed(KubernetesTree())
  {
  }

  lemma PairsWellFormed()
    ensures WellFormed(MetadataTree()) && WellFormed(RepositoryTree()) && WellFormed(SupplyChainTree())
  {
  }

  lemma CanonicalTreeIsWellFormed()
    ensures WellFormed(CanonicalTree()) && CanonicalTree().Node?
  {
    SqlWellFormed();
    KubernetesWellFormed();
    PairsWellFormed();
    var spec := SpecTree().children;
    assert spec[0].0[0] == 'k' && spec[1].0[0] == 'r' && |spec[2].0| == 3 && |spec[3].0| == 12
        && spec[2].0[0] == 's' && spec[3].0[0] == 's';
    assert WellFormed(SpecTree());
    var root := CanonicalTree().children;
    assert root[0].0[0] == '$' && root[1].0[0] == 'a' && root[2].0[0] == 'k' && root[3].0[0] == 'm' && root[4].0[0] == 's';
  }

  /** The validator on the canonical policy: a pair without findings holds the canonical policy and a
      schema that accepts no other document, and such a pair exists. */
  lemma FleetPolicyIsPinned(policy: Option<Json>, schema: Option<Json>, doc: Json)
    ensures DocumentFindings(policy, schema, CanonicalTree()) == [] ==>
              policy == Some(JsonOf(CanonicalTree()))
              && schema.Some? && (Accepts(schema.value, doc) ==> doc == JsonOf(CanonicalTree()))
    ensures DocumentFindings(Some(JsonOf(CanonicalTree())), Some(Identified(ConstSchema(CanonicalTree()))),
                             CanonicalTree()) == []
  {
    CanonicalTreeIsWellFormed();
    var tree := CanonicalTree();
    CanonicalPairPasses(tree);
    if DocumentFindings(policy, schema, tree) == [] {
      PinnedPair(policy, schema, tree, doc);
    }
  }

  /** Any tree of objects has a pair without findings whose schema accepts nothing: at an object node the
      validator does not read `const`. */
  lemma CleanPairMayAcceptNothing(tree: Expected, doc: Json)
    requires WellFormed(tree) && tree.Node?
    ensures var schema := WithConst(Identified(ConstSchema(tree)), Null);
            DocumentFindings(Some(JsonOf(tree)), Some(schema), tree) == [] && !Accepts(schema, doc)
  {
    CanonicalPairPasses(tree);
    var clean := Identified(ConstSchema(tree));
    WithConstKeeps(clean, Null, tree, ["schema"]);
    NullConstAcceptsNothing(WithConst(clean, Null), tree, doc);
  }

  lemma NullConstAcceptsNothing(schema: Json, tree: Expected, doc: Json)
    requires WellFormed(tree) && tree.Node? && SchemaFindings(Some(schema), tree, ["schema"]) == []
    requires Field(Some(schema), "const") == Some(Null)
    ensures !Accepts(schema, doc)
  {
    if Accepts(schema, doc) {
      SchemaPins(Some(schema), tree, ["schema"], doc);
    }
  }

  function WithConst(schema: Json, value: Json): Json
    requires schema.Obj?
  {
    Obj(schema.members["const" := value])
  }

  lemma OtherKeywordKept(schema: Json, value: Json, name: string)
    requires schema.Obj? && name != "const"
    ensures Field(Some(WithConst(schema, value)), name) == Field(Some(schema), name)
  {
  }

  lemma WithConstKeeps(schema: Json, value: Json, e: Expected, path: seq<string>)
    requires schema.Obj? && e.Node?
    ensures SchemaFindings(Some(WithConst(schema, value)), e, path) == SchemaFindings(Some(schema), e, path)
    ensures IdentityFindings(Some(WithConst(schema, value)), DraftUri(), CanonicalId())
         == IdentityFindings(Some(schema), DraftUri(), CanonicalId())
    ensures Field(Some(WithConst(schema, value)), "const") == Some(value)
  {
    assert "const"[0] == 'c' && "type"[0] == 't' && "required"[0] == 'r' && "properties"[0] == 'p';
    assert "additionalProperties"[0] == 'a' && "$schema"[0] == '$' && "$id"[0] == '$';
    OtherKeywordKept(schema, value, "type");
    OtherKeywordKept(schema, value, "required");
    OtherKeywordKept(schema, value, "properties");
    OtherKeywordKept(schema, value, "additionalProperties");
    OtherKeywordKept(schema, value, "$schema");
    OtherKeywordKept(schema, value, "$id");
    SameKeywordsSameFindings(Some(WithConst(schema, value)), Some(schema), e, path);
  }

  /** In particular the canonical policy has one. */
  lemma CanonicalPairMayAcceptNothing(doc: Json)
    ensures var tree := CanonicalTree();
            var schema := WithConst(Identified(ConstSchema(tree)), Null);
            DocumentFindings(Some(JsonOf(tree)), Some(schema), tree) == [] && !Accepts(schema, doc)
  {
    CanonicalTreeIsWellFormed();
    CleanPairMayAcceptNothing(CanonicalTree(), doc);
  }
}

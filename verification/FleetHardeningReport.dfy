/** What the validator reports, said without its recursion: every problem of every place of the expected tree, place
    by place — and the canonical policy and schema identity as whole literals. */
module FleetHardeningReport {
  import opened Collections
  import opened Wrappers
  import opened FleetHardening
  import opened FleetHardeningLaws

  // ---- places ----

  /** A place of the expected tree: the names that lead to it, and what is expected there. */
  datatype Place = Place(path: seq<string>, expected: Expected)

  /** All places in document order: each object before its members. */
  function Places(e: Expected, path: seq<string>): seq<Place>
    decreases e, 1
  {
    [Place(path, e)] + if e.Node? then PlacesBelow(e, path, |e.children|) else []
  }

  function PlacesBelow(e: Expected, path: seq<string>, n: nat): seq<Place>
    requires e.Node? && n <= |e.children|
    decreases e, 0, n
  {
    if n == 0 then []
    else PlacesBelow(e, path, n - 1) + Places(e.children[n - 1].1, path + [e.children[n - 1].0])
  }

  /** The reasons that apply at a place, in the order of the list. */
  ghost function At(place: Place, reasons: seq<Reason>, root: string, problem: (Place, Reason) -> bool): seq<Finding> {
    if reasons == [] then []
    else
      (if problem(place, reasons[0]) then [Finding([root] + place.path, reasons[0])] else [])
      + At(place, reasons[1..], root, problem)
  }

  ghost function Report(places: seq<Place>, reasons: seq<Reason>, root: string, problem: (Place, Reason) -> bool): seq<Finding> {
    if places == [] then [] else At(places[0], reasons, root, problem) + Report(places[1..], reasons, root, problem)
  }

  lemma {:induction false} ReportConcat(a: seq<Place>, b: seq<Place>, reasons: seq<Reason>, root: string,
                                        problem: (Place, Reason) -> bool)
    ensures Report(a + b, reasons, root, problem) == Report(a, reasons, root, problem) + Report(b, reasons, root, problem)
  {
    if a == [] {
      assert a + b == b;
    } else {
      var first, rest, tail := At(a[0], reasons, root, problem), Report(a[1..], reasons, root, problem),
          Report(b, reasons, root, problem);
      assert (a + b)[1..] == a[1..] + b && (a + b)[0] == a[0];
      ReportConcat(a[1..], b, reasons, root, problem);
      Reassociate(first, rest, tail);
    }
  }

  lemma AtCons(place: Place, reasons: seq<Reason>, root: string, problem: (Place, Reason) -> bool)
    requires reasons != []
    ensures At(place, reasons, root, problem)
         == When(problem(place, reasons[0]), [root] + place.path, reasons[0]) + At(place, reasons[1..], root, problem)
  {
  }

  lemma AtThree(place: Place, x: Reason, y: Reason, z: Reason, root: string, problem: (Place, Reason) -> bool)
    ensures At(place, [x, y, z], root, problem)
         == When(problem(place, x), [root] + place.path, x)
            + (When(problem(place, y), [root] + place.path, y) + When(problem(place, z), [root] + place.path, z))
  {
    assert [x, y, z][1..] == [y, z] && [y, z][1..] == [z];
    assert At(place, [z], root, problem) == When(problem(place, z), [root] + place.path, z) + [];
  }

  lemma OnePlace(place: Place, reasons: seq<Reason>, root: string, problem: (Place, Reason) -> bool)
    ensures Report([place], reasons, root, problem) == At(place, reasons, root, problem)
  {
    assert [place][1..] == [];
    assert At(place, reasons, root, problem) + [] == At(place, reasons, root, problem);
  }

  // ---- the document ----

  predicate IsObject(node: Option<Json>) {
    node.Some? && node.value.Obj?
  }

  /** The value the names lead to, if there is one. */
  function ValueAt(doc: Option<Json>, path: seq<string>): Option<Json> {
    if path == [] then doc
    else
      var parent, name := ValueAt(doc, path[..|path| - 1]), path[|path| - 1];
      if IsObject(parent) && name in parent.value.members then Some(parent.value.members[name]) else None
  }

  /** Every value on the way is an object. */
  predicate Reached(doc: Option<Json>, path: seq<string>) {
    path == [] || (Reached(doc, path[..|path| - 1]) && IsObject(ValueAt(doc, path[..|path| - 1])))
  }

  function Names(e: Expected): seq<string>
    requires e.Node?
  {
    seq(|e.children|, i requires 0 <= i < |e.children| => e.children[i].0)
  }

  predicate HasKeys(members: map<string, Json>, names: seq<string>) {
    (forall k :: k in members ==> k in names) && forall k :: k in names ==> k in members
  }

  /** What can be wrong with the document at a place. */
  predicate DocumentProblem(doc: Option<Json>, place: Place, reason: Reason) {
    var here, e := ValueAt(doc, place.path), place.expected;
    Reached(doc, place.path)
    && match reason
       case NotEqual => e.Scalar? && here != Some(e.value)
       case NotAnObject => e.Node? && !IsObject(here)
       case WrongKeys => e.Node? && IsObject(here) && !HasKeys(here.value.members, Names(e))
       case _ => false
  }

  const DOCUMENT_REASONS := [NotEqual, NotAnObject, WrongKeys]

  lemma Below(doc: Option<Json>, path: seq<string>, name: string)
    ensures ValueAt(doc, path + [name]) == Field(ValueAt(doc, path), name)
    ensures Reached(doc, path + [name]) <==> Reached(doc, path) && IsObject(ValueAt(doc, path))
  {
    assert (path + [name])[..|path|] == path;
  }

  lemma KeysExactly(members: map<string, Json>, e: Expected)
    requires e.Node?
    ensures members.Keys == NameSet(e.children) <==> HasKeys(members, Names(e))
  {
    var names := Names(e);
    assert forall i :: 0 <= i < |names| ==> names[i] == e.children[i].0;
    assert forall k :: k in names <==> k in NameSet(e.children) by {
      forall k
        ensures k in names <==> k in NameSet(e.children)
      {
        if k in NameSet(e.children) {
          var i :| 0 <= i < |e.children| && e.children[i].0 == k;
          assert names[i] == k;
        }
      }
    }
  }

  ghost function DocumentReport(doc: Option<Json>, places: seq<Place>): seq<Finding> {
    Report(places, DOCUMENT_REASONS, "policy", (place, reason) => DocumentProblem(doc, place, reason))
  }

  lemma DocumentConcat(doc: Option<Json>, a: seq<Place>, b: seq<Place>)
    ensures DocumentReport(doc, a + b) == DocumentReport(doc, a) + DocumentReport(doc, b)
  {
    ReportConcat(a, b, DOCUMENT_REASONS, "policy", (place, reason) => DocumentProblem(doc, place, reason));
  }

  /** The problems of one place. */
  lemma DocumentHere(doc: Option<Json>, e: Expected, path: seq<string>)
    ensures var here := ValueAt(doc, path);
            DocumentReport(doc, [Place(path, e)])
            == if !Reached(doc, path) then []
               else if e.Scalar? then When(here != Some(e.value), ["policy"] + path, NotEqual)
               else if !IsObject(here) then [Finding(["policy"] + path, NotAnObject)]
               else When(here.value.members.Keys != NameSet(e.children), ["policy"] + path, WrongKeys)
  {
    var place := Place(path, e);
    var problem := (place, reason) => DocumentProblem(doc, place, reason);
    AtThree(place, NotEqual, NotAnObject, WrongKeys, "policy", problem);
    OnePlace(place, DOCUMENT_REASONS, "policy", problem);
    if e.Node? && IsObject(ValueAt(doc, path)) {
      KeysExactly(ValueAt(doc, path).value.members, e);
    }
  }

  lemma {:induction false} DocumentPlaces(doc: Option<Json>, e: Expected, path: seq<string>)
    ensures DocumentReport(doc, Places(e, path))
         == if Reached(doc, path) then ExactFindings(ValueAt(doc, path), e, ["policy"] + path) else []
    decreases e, 1
  {
    DocumentHere(doc, e, path);
    if e.Node? {
      DocumentBelow(doc, e, path, |e.children|);
      DocumentConcat(doc, [Place(path, e)], PlacesBelow(e, path, |e.children|));
    } else {
      assert Places(e, path) == [Place(path, e)];
    }
  }

  /** The findings below a place: those of the child `i`, and those of the first `n` children. */
  function DocumentChildFindings(doc: Option<Json>, e: Expected, path: seq<string>, i: nat): seq<Finding>
    requires e.Node? && i < |e.children|
  {
    var (name, child) := e.children[i];
    var here := ValueAt(doc, path);
    if Reached(doc, path) && IsObject(here) then ExactFindings(Field(here, name), child, ["policy"] + path + [name]) else []
  }

  function DocumentBelowFindings(doc: Option<Json>, e: Expected, path: seq<string>, n: nat): seq<Finding>
    requires e.Node? && n <= |e.children|
  {
    var here := ValueAt(doc, path);
    if Reached(doc, path) && IsObject(here) then ExactChildren(here, e, ["policy"] + path, n) else []
  }

  lemma DocumentFindingsStep(doc: Option<Json>, e: Expected, path: seq<string>, n: nat)
    requires e.Node? && n < |e.children|
    ensures DocumentBelowFindings(doc, e, path, n + 1)
         == DocumentBelowFindings(doc, e, path, n) + DocumentChildFindings(doc, e, path, n)
  {
  }

  lemma {:induction false} DocumentChild(doc: Option<Json>, e: Expected, path: seq<string>, i: nat)
    requires e.Node? && i < |e.children|
    ensures DocumentReport(doc, Places(e.children[i].1, path + [e.children[i].0])) == DocumentChildFindings(doc, e, path, i)
    decreases e, 0, i
  {
    var (name, child) := e.children[i];
    DocumentPlaces(doc, child, path + [name]);
    Below(doc, path, name);
    assert ["policy"] + (path + [name]) == ["policy"] + path + [name];
  }

  lemma OneMoreMember(doc: Option<Json>, e: Expected, path: seq<string>, n: nat)
    requires e.Node? && n < |e.children|
    requires DocumentReport(doc, PlacesBelow(e, path, n)) == DocumentBelowFindings(doc, e, path, n)
    requires DocumentReport(doc, Places(e.children[n].1, path + [e.children[n].0])) == DocumentChildFindings(doc, e, path, n)
    ensures DocumentReport(doc, PlacesBelow(e, path, n + 1)) == DocumentBelowFindings(doc, e, path, n + 1)
  {
    DocumentConcat(doc, PlacesBelow(e, path, n), Places(e.children[n].1, path + [e.children[n].0]));
    DocumentFindingsStep(doc, e, path, n);
  }

  lemma {:induction false} DocumentBelow(doc: Option<Json>, e: Expected, path: seq<string>, n: nat)
    requires e.Node? && n <= |e.children|
    ensures DocumentReport(doc, PlacesBelow(e, path, n)) == DocumentBelowFindings(doc, e, path, n)
    decreases e, 0, n
  {
    if n > 0 {
      var m := n - 1;
      DocumentBelow(doc, e, path, m);
      DocumentChild(doc, e, path, m);
      OneMoreMember(doc, e, path, m);
    }
  }

  // ---- the schema ----

  /** The keyword has this value. */
  predicate Says(node: Option<Json>, keyword: string, v: Json) {
    IsObject(node) && keyword in node.value.members && node.value.members[keyword] == v
  }

  /** The properties the validator goes through. */
  function PropertiesOf(node: Option<Json>): Option<map<string, Json>> {
    if IsObject(node) && "properties" in node.value.members then PropertiesSeen(Some(node.value.members["properties"])) else None
  }

  /** The subschema the names lead to, if there is one. */
  function SchemaAt(schema: Option<Json>, path: seq<string>): Option<Json> {
    if path == [] then schema
    else
      var properties, name := PropertiesOf(SchemaAt(schema, path[..|path| - 1])), path[|path| - 1];
      if properties.Some? && name in properties.value then Some(properties.value[name]) else None
  }

  /** Every schema on the way has properties. */
  predicate SchemaReached(schema: Option<Json>, path: seq<string>) {
    path == [] || (SchemaReached(schema, path[..|path| - 1]) && PropertiesOf(SchemaAt(schema, path[..|path| - 1])).Some?)
  }

  /** The keyword lists these names, each once and in any order. */
  predicate Lists(node: Option<Json>, keyword: string, names: seq<string>) {
    IsObject(node) && keyword in node.value.members && node.value.members[keyword].Arr?
    && |node.value.members[keyword].items| == |names|
    && forall i :: 0 <= i < |names| ==> Str(names[i]) in node.value.members[keyword].items
  }

  /** What can be wrong with the schema at a place. */
  predicate SchemaProblem(schema: Option<Json>, place: Place, reason: Reason) {
    var here, e := SchemaAt(schema, place.path), place.expected;
    SchemaReached(schema, place.path)
    && match reason
       case WrongConst => e.Scalar? && !Says(here, "const", e.value)
       case TypeNotObject => e.Node? && !Says(here, "type", Str("object"))
       case AdditionalAllowed => e.Node? && !Says(here, "additionalProperties", Bool(false))
       case WrongRequired => e.Node? && !Lists(here, "required", Names(e))
       case NoProperties => e.Node? && PropertiesOf(here).None?
       case WrongProperties => e.Node? && PropertiesOf(here).Some? && !HasKeys(PropertiesOf(here).value, Names(e))
       case _ => false
  }

  const SCHEMA_REASONS := [WrongConst, TypeNotObject, AdditionalAllowed, WrongRequired, NoProperties, WrongProperties]

  lemma SchemaStep(schema: Option<Json>, path: seq<string>, name: string)
    ensures var properties := PropertiesOf(SchemaAt(schema, path));
            SchemaAt(schema, path + [name])
            == if properties.Some? && name in properties.value then Some(properties.value[name]) else None
    ensures SchemaReached(schema, path + [name]) <==> SchemaReached(schema, path) && PropertiesOf(SchemaAt(schema, path)).Some?
  {
    assert (path + [name])[..|path|] == path;
  }

  /** With distinct names, a list of as many items that holds each of them is a permutation of them. */
  lemma {:induction false} Permutation(items: seq<Json>, names: seq<Json>)
    requires forall i, j :: 0 <= i < j < |names| ==> names[i] != names[j]
    ensures multiset(items) == multiset(names) <==> |items| == |names| && forall i :: 0 <= i < |names| ==> names[i] in items
  {
    if multiset(items) == multiset(names) {
      assert |multiset(items)| == |items| && |multiset(names)| == |names|;
      forall i | 0 <= i < |names|
        ensures names[i] in items
      {
        assert names[i] in multiset(names);
        assert names[i] in multiset(items);
      }
    } else if |items| == |names| && forall i :: 0 <= i < |names| ==> names[i] in items {
      Contained(items, names);
      SameSize(multiset(items), multiset(names));
    }
  }

  lemma {:induction false} Contained(items: seq<Json>, names: seq<Json>)
    requires forall i, j :: 0 <= i < j < |names| ==> names[i] != names[j]
    requires forall i :: 0 <= i < |names| ==> names[i] in items
    ensures multiset(names) <= multiset(items)
  {
    forall x
      ensures multiset(names)[x] <= multiset(items)[x]
    {
      OnceEach(names, x);
      if x in names {
        assert x in multiset(items);
      }
    }
  }

  lemma {:induction false} OnceEach(names: seq<Json>, x: Json)
    requires forall i, j :: 0 <= i < j < |names| ==> names[i] != names[j]
    ensures multiset(names)[x] == if x in names then 1 else 0
  {
    if names != [] {
      assert names == [names[0]] + names[1..];
      OnceEach(names[1..], x);
    }
  }

  lemma SameSize<T>(a: multiset<T>, b: multiset<T>)
    requires b <= a && |a| == |b|
    ensures a == b
  {
    assert a == b + (a - b);
  }

  lemma RequiredExactly(node: Option<Json>, e: Expected)
    requires WellFormed(e) && e.Node?
    ensures RequiredMatches(Field(node, "required"), e.children) <==> Lists(node, "required", Names(e))
  {
    var required, names := Field(node, "required"), StrNames(e.children);
    if required.Some? && required.value.Arr? {
      assert forall i :: 0 <= i < |names| ==> names[i] == Str(Names(e)[i]);
      Permutation(required.value.items, names);
    }
  }

  ghost function SchemaReport(schema: Option<Json>, places: seq<Place>): seq<Finding> {
    Report(places, SCHEMA_REASONS, "schema", (place, reason) => SchemaProblem(schema, place, reason))
  }

  lemma SchemaConcat(schema: Option<Json>, a: seq<Place>, b: seq<Place>)
    ensures SchemaReport(schema, a + b) == SchemaReport(schema, a) + SchemaReport(schema, b)
  {
    ReportConcat(a, b, SCHEMA_REASONS, "schema", (place, reason) => SchemaProblem(schema, place, reason));
  }

  lemma Regroup<T>(a: seq<T>, b: seq<T>, c: seq<T>, d: seq<T>, rest: seq<T>)
    ensures a + (b + (c + (d + rest))) == a + (b + c + d + rest)
  {
  }

  lemma AtSix(place: Place, r: seq<Reason>, root: string, problem: (Place, Reason) -> bool)
    requires |r| == 6
    ensures var path := [root] + place.path;
            At(place, r, root, problem)
            == When(problem(place, r[0]), path, r[0])
               + (When(problem(place, r[1]), path, r[1]) + When(problem(place, r[2]), path, r[2])
                  + When(problem(place, r[3]), path, r[3])
                  + (When(problem(place, r[4]), path, r[4]) + When(problem(place, r[5]), path, r[5])))
  {
    var path := [root] + place.path;
    assert At(place, r[3..], root, problem)
        == When(problem(place, r[3]), path, r[3])
           + (When(problem(place, r[4]), path, r[4]) + When(problem(place, r[5]), path, r[5])) by {
      AtThree(place, r[3], r[4], r[5], root, problem);
      assert r[3..] == [r[3], r[4], r[5]];
    }
    assert r[1..][1..] == r[2..] && r[2..][1..] == r[3..];
    AtCons(place, r, root, problem);
    AtCons(place, r[1..], root, problem);
    AtCons(place, r[2..], root, problem);
    Regroup(When(problem(place, r[0]), path, r[0]), When(problem(place, r[1]), path, r[1]),
            When(problem(place, r[2]), path, r[2]),
            When(problem(place, r[3]), path, r[3]),
            When(problem(place, r[4]), path, r[4]) + When(problem(place, r[5]), path, r[5]));
  }

  /** The findings of one place, without those below it. */
  function SchemaFindingsHere(here: Option<Json>, e: Expected, path: seq<string>): seq<Finding> {
    if e.Scalar? then When(Field(here, "const") != Some(e.value), path, WrongConst)
    else
      KeywordFindings(here, e.children, path)
      + if PropertiesOf(here).None? then [Finding(path, NoProperties)]
        else When(PropertiesOf(here).value.Keys != NameSet(e.children), path, WrongProperties)
  }

  /** The keyword checks, one by one. */
  lemma KeywordsExactly(schema: Option<Json>, e: Expected, path: seq<string>)
    requires WellFormed(e) && e.Node? && SchemaReached(schema, path)
    ensures var here, place := SchemaAt(schema, path), Place(path, e);
            && (SchemaProblem(schema, place, TypeNotObject) <==> Field(here, "type") != Some(Str("object")))
            && (SchemaProblem(schema, place, AdditionalAllowed) <==> Field(here, "additionalProperties") != Some(Bool(false)))
            && (SchemaProblem(schema, place, WrongRequired) <==> !RequiredMatches(Field(here, "required"), e.children))
  {
    RequiredExactly(SchemaAt(schema, path), e);
  }

  lemma PropertiesExactly(schema: Option<Json>, e: Expected, path: seq<string>)
    requires e.Node? && SchemaReached(schema, path)
    ensures var properties, place := PropertiesOf(SchemaAt(schema, path)), Place(path, e);
            && (SchemaProblem(schema, place, NoProperties) <==> properties.None?)
            && (SchemaProblem(schema, place, WrongProperties)
                <==> properties.Some? && properties.value.Keys != NameSet(e.children))
            && !SchemaProblem(schema, place, WrongConst)
  {
    var properties := PropertiesOf(SchemaAt(schema, path));
    if properties.Some? {
      KeysExactly(properties.value, e);
    }
  }

  lemma NodeHere(schema: Option<Json>, e: Expected, path: seq<string>)
    requires WellFormed(e) && e.Node? && SchemaReached(schema, path)
    ensures var place, full := Place(path, e), ["schema"] + path;
            When(SchemaProblem(schema, place, WrongConst), full, WrongConst)
            + (When(SchemaProblem(schema, place, TypeNotObject), full, TypeNotObject)
               + When(SchemaProblem(schema, place, AdditionalAllowed), full, AdditionalAllowed)
               + When(SchemaProblem(schema, place, WrongRequired), full, WrongRequired)
               + (When(SchemaProblem(schema, place, NoProperties), full, NoProperties)
                  + When(SchemaProblem(schema, place, WrongProperties), full, WrongProperties)))
            == SchemaFindingsHere(SchemaAt(schema, path), e, full)
  {
    var place, full := Place(path, e), ["schema"] + path;
    assert When(SchemaProblem(schema, place, TypeNotObject), full, TypeNotObject)
         + When(SchemaProblem(schema, place, AdditionalAllowed), full, AdditionalAllowed)
         + When(SchemaProblem(schema, place, WrongRequired), full, WrongRequired)
        == KeywordFindings(SchemaAt(schema, path), e.children, full) by {
      KeywordsExactly(schema, e, path);
    }
    var properties := PropertiesOf(SchemaAt(schema, path));
    assert When(SchemaProblem(schema, place, NoProperties), full, NoProperties)
         + When(SchemaProblem(schema, place, WrongProperties), full, WrongProperties)
        == if properties.None? then [Finding(full, NoProperties)]
           else When(properties.value.Keys != NameSet(e.children), full, WrongProperties) by {
      PropertiesExactly(schema, e, path);
    }
    assert When(SchemaProblem(schema, place, WrongConst), full, WrongConst) == [];
  }

  lemma SchemaHere(schema: Option<Json>, e: Expected, path: seq<string>)
    requires WellFormed(e)
    ensures SchemaReport(schema, [Place(path, e)])
         == if SchemaReached(schema, path) then SchemaFindingsHere(SchemaAt(schema, path), e, ["schema"] + path) else []
  {
    var place := Place(path, e);
    var problem := (place, reason) => SchemaProblem(schema, place, reason);
    OnePlace(place, SCHEMA_REASONS, "schema", problem);
    AtSix(place, SCHEMA_REASONS, "schema", problem);
    if !SchemaReached(schema, path) {
      assert forall reason :: !problem(place, reason);
    } else if e.Node? {
      NodeHere(schema, e, path);
    }
  }

  lemma {:induction false} SchemaPlaces(schema: Option<Json>, e: Expected, path: seq<string>)
    requires WellFormed(e)
    ensures SchemaReport(schema, Places(e, path))
         == if SchemaReached(schema, path) then SchemaFindings(SchemaAt(schema, path), e, ["schema"] + path) else []
    decreases e, 1
  {
    SchemaHere(schema, e, path);
    if e.Node? {
      SchemaBelow(schema, e, path, |e.children|);
      SchemaConcat(schema, [Place(path, e)], PlacesBelow(e, path, |e.children|));
    } else {
      assert Places(e, path) == [Place(path, e)];
    }
  }

  /** The findings below a place: those of the child `i`, and those of the first `n` children. */
  function ChildFindings(schema: Option<Json>, e: Expected, path: seq<string>, i: nat): seq<Finding>
    requires e.Node? && i < |e.children|
  {
    var (name, child) := e.children[i];
    var properties := PropertiesOf(SchemaAt(schema, path));
    if SchemaReached(schema, path) && properties.Some?
    then SchemaFindings(if name in properties.value then Some(properties.value[name]) else None,
                        child, ["schema"] + path + [name])
    else []
  }

  function BelowFindings(schema: Option<Json>, e: Expected, path: seq<string>, n: nat): seq<Finding>
    requires e.Node? && n <= |e.children|
  {
    var properties := PropertiesOf(SchemaAt(schema, path));
    if SchemaReached(schema, path) && properties.Some? then SchemaChildren(properties.value, e, ["schema"] + path, n) else []
  }

  lemma BelowFindingsStep(schema: Option<Json>, e: Expected, path: seq<string>, n: nat)
    requires e.Node? && n < |e.children|
    ensures BelowFindings(schema, e, path, n + 1) == BelowFindings(schema, e, path, n) + ChildFindings(schema, e, path, n)
  {
  }

  lemma {:induction false} SchemaChild(schema: Option<Json>, e: Expected, path: seq<string>, i: nat)
    requires WellFormed(e) && e.Node? && i < |e.children|
    ensures SchemaReport(schema, Places(e.children[i].1, path + [e.children[i].0])) == ChildFindings(schema, e, path, i)
    decreases e, 0, i
  {
    var (name, child) := e.children[i];
    SchemaPlaces(schema, child, path + [name]);
    SchemaStep(schema, path, name);
    assert ["schema"] + (path + [name]) == ["schema"] + path + [name];
  }

  lemma OneMoreChild(schema: Option<Json>, e: Expected, path: seq<string>, n: nat)
    requires e.Node? && n < |e.children|
    requires SchemaReport(schema, PlacesBelow(e, path, n)) == BelowFindings(schema, e, path, n)
    requires SchemaReport(schema, Places(e.children[n].1, path + [e.children[n].0])) == ChildFindings(schema, e, path, n)
    ensures SchemaReport(schema, PlacesBelow(e, path, n + 1)) == BelowFindings(schema, e, path, n + 1)
  {
    SchemaConcat(schema, PlacesBelow(e, path, n), Places(e.children[n].1, path + [e.children[n].0]));
    BelowFindingsStep(schema, e, path, n);
  }

  lemma {:induction false} SchemaBelow(schema: Option<Json>, e: Expected, path: seq<string>, n: nat)
    requires WellFormed(e) && e.Node? && n <= |e.children|
    ensures SchemaReport(schema, PlacesBelow(e, path, n)) == BelowFindings(schema, e, path, n)
    decreases e, 0, n
  {
    if n > 0 {
      var m := n - 1;
      SchemaBelow(schema, e, path, m);
      SchemaChild(schema, e, path, m);
      OneMoreChild(schema, e, path, m);
    }
  }

  // ---- what the properties are ----

  /** The number a string of digits stands for. */
  function NumberOf(digits: string): int {
    if digits == "" then 0 else NumberOf(digits[..|digits| - 1]) * 10 + (digits[|digits| - 1] as int - 48)
  }

  lemma {:induction false} DecimalExactly(n: nat)
    ensures var d := Decimal(n);
            d != "" && NumberOf(d) == n && (forall i :: 0 <= i < |d| ==> 48 <= d[i] as int <= 57) && (n > 0 ==> d[0] as int != 48)
    ensures n < 10 ==> |Decimal(n)| == 1
  {
    if n < 10 {
      assert Decimal(n)[..0] == "";
    } else {
      DecimalExactly(n / 10);
      var front := Decimal(n / 10);
      assert Decimal(n)[..|front|] == front;
    }
  }

  lemma {:induction false} IndexedExactly(items: seq<Json>, n: nat)
    requires n <= |items|
    ensures forall i :: 0 <= i < n ==> Decimal(i) in Indexed(items, n) && Indexed(items, n)[Decimal(i)] == items[i]
    ensures forall k :: k in Indexed(items, n) ==> exists i :: 0 <= i < n && Decimal(i) == k
  {
    if n > 0 {
      var m, seen := n - 1, Indexed(items, n - 1);
      IndexedExactly(items, m);
      forall i | 0 <= i < m
        ensures Decimal(i) != Decimal(m) && Indexed(items, n)[Decimal(i)] == items[i]
      {
        DecimalExactly(i);
        DecimalExactly(m);
      }
      assert Indexed(items, n) == seen[Decimal(m) := items[m]];
    }
  }

  /** An object's properties are its members, an array's are its items by number, and nothing else has any. */
  lemma PropertiesSeenExactly(v: Json)
    ensures PropertiesSeen(Some(v)).Some? <==> v.Obj? || v.Arr?
    ensures v.Obj? ==> PropertiesSeen(Some(v)).value == v.members
    ensures v.Arr? ==> var seen := PropertiesSeen(Some(v)).value;
              (forall i :: 0 <= i < |v.items| ==> Decimal(i) in seen && seen[Decimal(i)] == v.items[i])
              && forall k :: k in seen ==> exists i :: 0 <= i < |v.items| && Decimal(i) == k
  {
    if v.Arr? {
      IndexedExactly(v.items, |v.items|);
    }
  }

  // ---- the canonical policy ----

  function MetadataV1(): Json {
    Obj(map["name" := Str("ores-fleet-hardening"), "version" := Str("1.0.0")])
  }

  function SqlV1(): Json {
    Obj(map["authority" := Str("organization-local-with-central-mirror"),
            "diesel_model" := Str("code-first"),
            "migration_registry" := Str("declarative-migrations/declarative-postgres-migrate.rs"),
            "namespace_pattern" := Str("^[a-z][a-z0-9_]{0,62}$"),
            "seaorm_model" := Str("database-first")])
  }

  function KubernetesV1(): Json {
    Obj(map["cluster_repository" := Str("ORESoftware/k8s-cluster"),
            "deployment_model" := Str("gitops"),
            "shared_library_repository" := Str("ORESoftware/k8s-libs-and-shared-defs")])
  }

  function RepositoryV1(): Json {
    Obj(map["binding_path" := Str(".ores/repository-hardening.v1.json"), "fail_closed" := Bool(true)])
  }

  function SupplyChainV1(): Json {
    Obj(map["content_sha256_required" := Bool(true), "source_revision_required" := Bool(true)])
  }

  function SpecV1(): Json {
    Obj(map["kubernetes" := KubernetesV1(), "repository" := RepositoryV1(), "sql" := SqlV1(), "supply_chain" := SupplyChainV1()])
  }

  /** The policy, member by member. */
  function PolicyV1(): Json {
    Obj(map["$schema" := Str("./hardening-fleet.v1.schema.json"),
            "api_version" := Str("ores.dev/fleet-hardening/v1"),
            "kind" := Str("FleetHardeningPolicy"),
            "metadata" := MetadataV1(),
            "spec" := SpecV1()])
  }

  lemma TwoMembers(e: Expected)
    requires e.Node? && |e.children| == 2
    ensures JsonOf(e) == Obj(map[e.children[0].0 := JsonOf(e.children[0].1), e.children[1].0 := JsonOf(e.children[1].1)])
  {
    assert MembersOf(e, 1) == map[e.children[0].0 := JsonOf(e.children[0].1)];
  }

  lemma ThreeMembers(e: Expected)
    requires e.Node? && |e.children| == 3
    ensures JsonOf(e) == Obj(map[e.children[0].0 := JsonOf(e.children[0].1), e.children[1].0 := JsonOf(e.children[1].1),
                                 e.children[2].0 := JsonOf(e.children[2].1)])
  {
    assert MembersOf(e, 1) == map[e.children[0].0 := JsonOf(e.children[0].1)];
    assert MembersOf(e, 2) == MembersOf(e, 1)[e.children[1].0 := JsonOf(e.children[1].1)];
  }

  lemma FourMembers(e: Expected)
    requires e.Node? && |e.children| == 4
    ensures JsonOf(e) == Obj(map[e.children[0].0 := JsonOf(e.children[0].1), e.children[1].0 := JsonOf(e.children[1].1),
                                 e.children[2].0 := JsonOf(e.children[2].1), e.children[3].0 := JsonOf(e.children[3].1)])
  {
    assert MembersOf(e, 1) == map[e.children[0].0 := JsonOf(e.children[0].1)];
    assert MembersOf(e, 2) == MembersOf(e, 1)[e.children[1].0 := JsonOf(e.children[1].1)];
    assert MembersOf(e, 3) == MembersOf(e, 2)[e.children[2].0 := JsonOf(e.children[2].1)];
  }

  lemma FiveMembers(e: Expected)
    requires e.Node? && |e.children| == 5
    ensures JsonOf(e) == Obj(map[e.children[0].0 := JsonOf(e.children[0].1), e.children[1].0 := JsonOf(e.children[1].1),
                                 e.children[2].0 := JsonOf(e.children[2].1), e.children[3].0 := JsonOf(e.children[3].1),
                                 e.children[4].0 := JsonOf(e.children[4].1)])
  {
    assert MembersOf(e, 1) == map[e.children[0].0 := JsonOf(e.children[0].1)];
    assert MembersOf(e, 2) == MembersOf(e, 1)[e.children[1].0 := JsonOf(e.children[1].1)];
    assert MembersOf(e, 3) == MembersOf(e, 2)[e.children[2].0 := JsonOf(e.children[2].1)];
    assert MembersOf(e, 4) == MembersOf(e, 3)[e.children[3].0 := JsonOf(e.children[3].1)];
  }

  lemma SqlKeys()
    ensures "diesel_mod" + "el" == "diesel_model" && "seaorm_mod" + "el" == "seaorm_model"
    ensures "migration_" + "registry" == "migration_registry" && "namespace_" + "pattern" == "namespace_pattern"
  {
  }

  lemma SqlAuthority()
    ensures "organizati" + "on-local-w" + "ith-centra" + "l-mirror" == "organization-local-with-central-mirror"
  {
  }

  lemma SqlRegistry()
    ensures "declarativ" + "e-migratio" + "ns/declara" + "tive-postg" + "res-migrat" + "e.rs"
         == "declarative-migrations/declarative-postgres-migrate.rs"
  {
    var front := "declarativ" + "e-migratio" + "ns/declara" + "tive-postg";
    assert front == "declarative-migrations/declarative-postg";
    assert front + "res-migrat" == "declarative-migrations/declarative-postgres-migrat";
  }

  lemma SqlPattern()
    ensures "^[a-z][a-z" + "0-9_]{0,62" + "}$" == "^[a-z][a-z0-9_]{0,62}$" && "database-f" + "irst" == "database-first"
  {
  }

  lemma SqlExactly()
    ensures JsonOf(SqlTree()) == SqlV1()
  {
    SqlKeys();
    SqlAuthority();
    SqlRegistry();
    SqlPattern();
    FiveMembers(SqlTree());
  }

  lemma KubernetesKeys()
    ensures "cluster_re" + "pository" == "cluster_repository" && "deployment" + "_model" == "deployment_model"
    ensures "shared_lib" + "rary_repos" + "itory" == "shared_library_repository"
  {
  }

  lemma KubernetesValues()
    ensures "ORESoftwar" + "e/k8s-clus" + "ter" == "ORESoftware/k8s-cluster"
    ensures "ORESoftwar" + "e/k8s-libs" + "-and-share" + "d-defs" == "ORESoftware/k8s-libs-and-shared-defs"
  {
  }

  lemma KubernetesExactly()
    ensures JsonOf(KubernetesTree()) == KubernetesV1()
  {
    KubernetesKeys();
    KubernetesValues();
    ThreeMembers(KubernetesTree());
  }

  lemma PairsExactly()
    ensures JsonOf(MetadataTree()) == MetadataV1()
    ensures JsonOf(RepositoryTree()) == RepositoryV1() && JsonOf(SupplyChainTree()) == SupplyChainV1()
  {
    RepositoryTexts();
    SupplyChainKeys();
    assert "ores-fleet" + "-hardening" == "ores-fleet-hardening";
    TwoMembers(MetadataTree());
    TwoMembers(RepositoryTree());
    TwoMembers(SupplyChainTree());
  }

  lemma RepositoryTexts()
    ensures "binding_pa" + "th" == "binding_path" && "fail_close" + "d" == "fail_closed"
    ensures ".ores/repo" + "sitory-har" + "dening.v1." + "json" == ".ores/repository-hardening.v1.json"
  {
  }

  lemma SupplyChainKeys()
    ensures "content_sh" + "a256_requi" + "red" == "content_sha256_required"
    ensures "source_rev" + "ision_requ" + "ired" == "source_revision_required"
    ensures "supply_cha" + "in" == "supply_chain"
  {
  }

  lemma SpecExactly()
    ensures JsonOf(SpecTree()) == SpecV1()
  {
    KubernetesExactly();
    PairsExactly();
    SqlExactly();
    SupplyChainKeys();
    FourMembers(SpecTree());
  }

  lemma SchemaText()
    ensures "./hardenin" + "g-fleet.v1" + ".schema.js" + "on" == "./hardening-fleet.v1.schema.json"
  {
  }

  lemma RootTexts()
    ensures "api_versio" + "n" == "api_version" && "FleetHarde" + "ningPolicy" == "FleetHardeningPolicy"
    ensures "ores.dev/f" + "leet-harde" + "ning/v1" == "ores.dev/fleet-hardening/v1"
  {
  }

  /** The expected tree is the policy. */
  lemma CanonicalExactly()
    ensures JsonOf(CanonicalTree()) == PolicyV1()
  {
    SchemaText();
    RootTexts();
    PairsExactly();
    SpecExactly();
    FiveMembers(CanonicalTree());
  }

  lemma DraftText()
    ensures DraftUri() == Str("https://json-schema.org/draft/2020-12/schema")
  {
    var front := "https://js" + "on-schema." + "org/draft/";
    assert front == "https://json-schema.org/draft/";
  }

  lemma IdRepository()
    ensures "https://gi" + "thub.com/O" + "RESoftware" + "/ores-gh-b" + "ots/" == "https://github.com/ORESoftware/ores-gh-bots/"
  {
  }

  lemma IdPath()
    ensures "blob/m" + "ain/config" + "/hardening" + "-fleet.v1." + "schema.jso" + "n"
         == "blob/main/config/hardening-fleet.v1.schema.json"
  {
  }

  /** The identifier names the schema's path in the repository. */
  lemma IdText()
    ensures CanonicalId() == Str("https://github.com/ORESoftware/ores-gh-bots/"
                                          + "blob/main/config/hardening-fleet.v1.schema.json")
  {
    IdRepository();
    IdPath();
    assert "ots/" + "blob/m" == "ots/blob/m";
  }

  // ---- the validator ----

  /** The draft and the identifier, as texts. */
  function IdentityReport(schema: Option<Json>): seq<Finding> {
    (if Says(schema, "$schema", Str("https://json-schema.org/draft/2020-12/schema")) then []
     else [Finding(["schema"], WrongDraft)])
    + if Says(schema, "$id",
              Str("https://github.com/ORESoftware/ores-gh-bots/" + "blob/main/config/hardening-fleet.v1.schema.json"))
      then []
      else [Finding(["schema"], WrongId)]
  }

  lemma IdentityExactly(schema: Option<Json>)
    ensures IdentityFindings(schema, DraftUri(), CanonicalId()) == IdentityReport(schema)
  {
    DraftText();
    IdText();
  }

  lemma WholeDocument(doc: Option<Json>, tree: Expected)
    ensures DocumentReport(doc, Places(tree, [])) == ExactFindings(doc, tree, ["policy"])
  {
    DocumentPlaces(doc, tree, []);
    assert ["policy"] + [] == ["policy"];
  }

  lemma WholeSchema(schema: Option<Json>, tree: Expected)
    requires WellFormed(tree)
    ensures SchemaReport(schema, Places(tree, [])) == SchemaFindings(schema, tree, ["schema"])
  {
    SchemaPlaces(schema, tree, []);
    assert ["schema"] + [] == ["schema"];
  }

  /** The validator reports every problem of the document, then the identity of the schema, then every problem of the
      schema: place by place in document order, nothing twice and nothing else. */
  lemma FindingsExactly(policy: Option<Json>, schema: Option<Json>, tree: Expected)
    requires WellFormed(tree)
    ensures DocumentFindings(policy, schema, tree)
         == DocumentReport(policy, Places(tree, [])) + IdentityReport(schema) + SchemaReport(schema, Places(tree, []))
  {
    WholeDocument(policy, tree);
    IdentityExactly(schema);
    WholeSchema(schema, tree);
  }

  /** A pair without findings is the policy itself and a schema of that draft and identifier that accepts no other
      document. */
  lemma PolicyExactly(policy: Option<Json>, schema: Option<Json>, doc: Json)
    ensures ExactFindings(policy, CanonicalTree(), ["policy"]) == [] <==> policy == Some(PolicyV1())
    ensures DocumentFindings(policy, schema, CanonicalTree()) == [] ==>
              policy == Some(PolicyV1()) && IdentityReport(schema) == []
              && schema.Some? && (Accepts(schema.value, doc) ==> doc == PolicyV1())
  {
    CanonicalTreeIsWellFormed();
    CanonicalExactly();
    IdentityExactly(schema);
    NoFindingExactly(policy, CanonicalTree(), ["policy"]);
    FleetPolicyIsPinned(policy, schema, doc);
  }

  /** The places of the policy are visited in the order of these names. */
  lemma CanonicalOrder()
    ensures Names(CanonicalTree()) == ["$schema", "api_version", "kind", "metadata", "spec"]
    ensures Names(MetadataTree()) == ["name", "version"]
    ensures Names(SpecTree()) == ["kubernetes", "repository", "sql", "supply_chain"]
  {
    RootTexts();
    SupplyChainKeys();
  }

  lemma SpecOrder()
    ensures Names(KubernetesTree()) == ["cluster_repository", "deployment_model", "shared_library_repository"]
    ensures Names(RepositoryTree()) == ["binding_path", "fail_closed"]
    ensures Names(SqlTree()) == ["authority", "diesel_model", "migration_registry", "namespace_pattern", "seaorm_model"]
    ensures Names(SupplyChainTree()) == ["content_sha256_required", "source_revision_required"]
  {
    KubernetesKeys();
    RepositoryTexts();
    SqlKeys();
    SupplyChainKeys();
  }
}

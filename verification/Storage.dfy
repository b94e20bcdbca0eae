/** The API Gateway store, its export for a snapshot and the import of one. */
module Storage {
  import opened Wrappers
  import Strings

  // ---- Records ----

  /** A record holds its own identifier: an API id, a domain name, a VPC link id. */
  datatype Record<+T> = Record(id: string, body: T)

  datatype Route = Route(routeId: string, routeKey: string, target: Option<string>, authorizerId: Option<string>,
                         managed: bool)

  datatype Integration = Integration(integrationId: string, uri: Option<string>, managed: bool)

  datatype Stage = Stage(stageName: string, deploymentId: Option<string>, autoDeploy: bool, description: Option<string>)

  datatype Deployment = Deployment(deploymentId: string, description: Option<string>, autoDeployed: bool)

  datatype Authorizer = Authorizer(authorizerId: string, name: string)

  datatype ApiBody = ApiBody(
    name: string,
    routes: map<string, Route>,
    integrations: map<string, Integration>,
    stages: map<string, Stage>,
    deployments: map<string, Deployment>,
    authorizers: map<string, Authorizer>)

  type Api = Record<ApiBody>

  type Tags = map<string, string>

  /** Domain name and VPC link records, kept as a description here. */
  type Described = Record<string>

  datatype Contents = Contents(
    apis: map<string, Api>,
    domainNames: map<string, Described>,
    vpcLinks: map<string, Described>,
    tags: map<string, Tags>)

  datatype Snapshot = Snapshot(
    apis: seq<Api>,
    domainNames: seq<Described>,
    vpcLinks: seq<Described>,
    tags: seq<Record<Tags>>)

  // ---- Sorted records ----

  predicate KeyedById<T>(m: map<string, Record<T>>) {
    forall k | k in m :: m[k].id == k
  }

  predicate Ascending<T>(values: seq<Record<T>>) {
    forall i, j | 0 <= i < j < |values| :: !Strings.Less(values[j].id, values[i].id)
  }

  predicate StrictlyAscending<T>(values: seq<Record<T>>) {
    forall i, j | 0 <= i < j < |values| :: Strings.Less(values[i].id, values[j].id)
  }

  predicate SameRecords<T(==)>(values: seq<Record<T>>, m: map<string, Record<T>>) {
    && (forall i | 0 <= i < |values| :: values[i].id in m && m[values[i].id] == values[i])
    && (forall k | k in m :: m[k] in values)
  }

  /** Where a record goes in a stable sort: after every record that is not greater. */
  method Position<T>(values: seq<Record<T>>, id: string) returns (p: nat)
    requires Ascending(values)
    ensures p <= |values|
    ensures forall i | 0 <= i < p :: !Strings.Less(id, values[i].id)
    ensures forall i | p <= i < |values| :: Strings.Less(id, values[i].id)
  {
    p := 0;
    while p < |values| && !Strings.Less(id, values[p].id)
      invariant p <= |values|
      invariant forall i | 0 <= i < p :: !Strings.Less(id, values[i].id)
    {
      p := p + 1;
    }
    if p < |values| {
      forall i | p <= i < |values| ensures Strings.Less(id, values[i].id) {
        if i > p { NotLessTransitive(id, values[p].id, values[i].id); }
      }
    }
  }

  lemma NotLessTransitive(a: string, b: string, c: string)
    requires Strings.Less(a, b) && !Strings.Less(c, b)
    ensures Strings.Less(a, c)
  {}

  lemma LessAsymmetric(a: string, b: string)
    requires Strings.Less(a, b)
    ensures !Strings.Less(b, a)
  {}

  function InsertAt<T>(values: seq<Record<T>>, p: nat, v: Record<T>): seq<Record<T>>
    requires p <= |values|
  {
    values[..p] + [v] + values[p..]
  }

  lemma InsertAscending<T>(values: seq<Record<T>>, p: nat, v: Record<T>)
    requires Ascending(values) && p <= |values|
    requires forall i | 0 <= i < p :: !Strings.Less(v.id, values[i].id)
    requires forall i | p <= i < |values| :: Strings.Less(v.id, values[i].id)
    ensures Ascending(InsertAt(values, p, v))
  {
    var more := InsertAt(values, p, v);
    forall i, j | 0 <= i < j < |more| ensures !Strings.Less(more[j].id, more[i].id) {
      if i == p { LessAsymmetric(v.id, values[j - 1].id); }
    }
  }

  lemma InsertStrict<T>(values: seq<Record<T>>, p: nat, v: Record<T>)
    requires StrictlyAscending(values) && p <= |values|
    requires forall i | 0 <= i < p :: !Strings.Less(v.id, values[i].id)
    requires forall i | p <= i < |values| :: Strings.Less(v.id, values[i].id)
    requires forall i | 0 <= i < |values| :: values[i].id != v.id
    ensures StrictlyAscending(InsertAt(values, p, v))
  {
    var more := InsertAt(values, p, v);
    forall i, j | 0 <= i < j < |more| ensures Strings.Less(more[i].id, more[j].id) {
      if j == p { Strings.LessTotal(values[i].id, v.id); }
    }
  }

  lemma InsertMembers<T>(values: seq<Record<T>>, p: nat, v: Record<T>)
    requires p <= |values|
    ensures multiset(InsertAt(values, p, v)) == multiset(values) + multiset{v}
    ensures forall x :: x in InsertAt(values, p, v) <==> x == v || x in values
  {
    assert values == values[..p] + values[p..];
    var more := InsertAt(values, p, v);
    assert forall x :: x in more <==> x in multiset(more);
    assert forall x :: x in values <==> x in multiset(values);
  }

  /** The records in the order of their ids, however the map iterates. */
  method SortedValues<T(==)>(m: map<string, Record<T>>) returns (values: seq<Record<T>>)
    ensures |values| == |m| && Ascending(values)
    ensures forall v :: v in values <==> exists k :: k in m && m[k] == v
    ensures KeyedById(m) ==> StrictlyAscending(values) && SameRecords(values, m)
  {
    values := [];
    var rest := m.Keys;
    while rest != {}
      invariant rest <= m.Keys && |values| + |rest| == |m| && Ascending(values)
      invariant forall v :: v in values <==> exists k :: k in m && k !in rest && m[k] == v
      invariant KeyedById(m) ==> StrictlyAscending(values)
      decreases |rest|
    {
      var k :| k in rest;
      var v := m[k];
      var p := Position(values, v.id);
      InsertAscending(values, p, v);
      InsertMembers(values, p, v);
      if KeyedById(m) {
        forall i | 0 <= i < |values| ensures values[i].id != v.id { assert values[i] in values; }
        InsertStrict(values, p, v);
      }
      values := InsertAt(values, p, v);
      rest := rest - {k};
    }
    if KeyedById(m) {
      forall i | 0 <= i < |values|
        ensures values[i].id in m && m[values[i].id] == values[i]
      {
        assert values[i] in values;
      }
    }
  }

  lemma {:induction false} StrictUnique<T>(a: seq<Record<T>>, b: seq<Record<T>>)
    requires StrictlyAscending(a) && StrictlyAscending(b)
    requires forall v :: v in a <==> v in b
    ensures a == b
  {
    assert |a| > 0 ==> a[0] in b;
    assert |b| > 0 ==> b[0] in a;
    if a != [] {
      var i :| 0 <= i < |b| && b[i] == a[0];
      var j :| 0 <= j < |a| && a[j] == b[0];
      if i > 0 && j > 0 { LessAsymmetric(a[0].id, b[0].id); assert false; }
      assert a[0] == b[0];
      RestSame(a, b);
      StrictUnique(a[1..], b[1..]);
      assert a == [a[0]] + a[1..] && b == [b[0]] + b[1..];
    }
  }

  lemma RestSame<T>(a: seq<Record<T>>, b: seq<Record<T>>)
    requires a != [] && b != [] && a[0] == b[0] && StrictlyAscending(a) && StrictlyAscending(b)
    requires forall v :: v in a <==> v in b
    ensures forall v :: v in a[1..] <==> v in b[1..]
  {
    HeadOnce(a);
    HeadOnce(b);
  }

  lemma HeadOnce<T>(a: seq<Record<T>>)
    requires a != [] && StrictlyAscending(a)
    ensures forall v :: v in a[1..] <==> v in a && v != a[0]
  {
    Strings.LessIrreflexive(a[0].id);
    forall v ensures v in a[1..] <==> v in a && v != a[0] {
      if v in a && v != a[0] {
        var i :| 0 <= i < |a| && a[i] == v;
        assert a[1..][i - 1] == v;
      }
    }
  }

  // ---- Import ----

  /** Inserting records by their own ids, later ones over earlier ones. */
  function Imported<T>(values: seq<Record<T>>): (m: map<string, Record<T>>)
    ensures KeyedById(m)
  {
    if values == [] then map[]
    else Imported(values[..|values| - 1])[values[|values| - 1].id := values[|values| - 1]]
  }

  method InsertAll<T>(values: seq<Record<T>>) returns (m: map<string, Record<T>>)
    ensures m == Imported(values)
  {
    m := map[];
    for i := 0 to |values|
      invariant m == Imported(values[..i])
    {
      m := m[values[i].id := values[i]];
      assert values[..i + 1][..i] == values[..i];
    }
    assert values[..|values|] == values;
  }

  lemma {:induction false} ImportedMembers<T>(values: seq<Record<T>>)
    requires forall i, j | 0 <= i < j < |values| :: values[i].id != values[j].id
    ensures forall i | 0 <= i < |values| ::
              values[i].id in Imported(values) && Imported(values)[values[i].id] == values[i]
    ensures forall k | k in Imported(values) :: Imported(values)[k] in values
  {
    if values != [] {
      var front, last := values[..|values| - 1], values[|values| - 1];
      ImportedMembers(front);
      forall i | 0 <= i < |values|
        ensures values[i].id in Imported(values) && Imported(values)[values[i].id] == values[i]
      {
        if i < |values| - 1 { assert front[i] == values[i] && values[i].id != last.id; }
      }
      forall k | k in Imported(values) ensures Imported(values)[k] in values {
        if k == last.id { assert Imported(values)[k] == last == values[|values| - 1]; }
        else { assert Imported(front)[k] in front; }
      }
    }
  }

  /** Importing an export gives the map back exactly when its keys are the ids. */
  lemma ImportExport<T>(m: map<string, Record<T>>, values: seq<Record<T>>)
    requires KeyedById(m) ==> StrictlyAscending(values) && SameRecords(values, m)
    ensures Imported(values) == m <==> KeyedById(m)
  {
    if KeyedById(m) {
      forall i, j | 0 <= i < j < |values| ensures values[i].id != values[j].id {
        Strings.LessIrreflexive(values[i].id);
      }
      ImportedMembers(values);
      var r := Imported(values);
      forall k ensures k in r <==> k in m {
        if k in r { assert r[k] in values; var i :| 0 <= i < |values| && values[i] == r[k]; }
        if k in m { assert m[k] in values; var i :| 0 <= i < |values| && values[i] == m[k]; }
      }
      forall k | k in m ensures r[k] == m[k] {
        assert m[k] in values;
        var i :| 0 <= i < |values| && values[i] == m[k];
      }
    }
  }

  // ---- The store ----

  function TagRecords(tags: map<string, Tags>): (m: map<string, Record<Tags>>)
    ensures KeyedById(m)
  {
    map arn | arn in tags :: Record(arn, tags[arn])
  }

  function TagsOf(records: map<string, Record<Tags>>): map<string, Tags> {
    map arn | arn in records :: records[arn].body
  }

  predicate Keyed(c: Contents) {
    KeyedById(c.apis) && KeyedById(c.domainNames) && KeyedById(c.vpcLinks)
  }

  /** `s` lists the records of `c` in the order of their ids. */
  predicate Exports(c: Contents, s: Snapshot) {
    && StrictlyAscending(s.apis) && SameRecords(s.apis, c.apis)
    && StrictlyAscending(s.domainNames) && SameRecords(s.domainNames, c.domainNames)
    && StrictlyAscending(s.vpcLinks) && SameRecords(s.vpcLinks, c.vpcLinks)
    && StrictlyAscending(s.tags) && SameRecords(s.tags, TagRecords(c.tags))
  }

  function Import(s: Snapshot): Contents {
    Contents(Imported(s.apis), Imported(s.domainNames), Imported(s.vpcLinks), TagsOf(Imported(s.tags)))
  }

  lemma SameRecordsUnique<T>(a: seq<Record<T>>, b: seq<Record<T>>, m: map<string, Record<T>>)
    requires StrictlyAscending(a) && SameRecords(a, m) && StrictlyAscending(b) && SameRecords(b, m)
    ensures a == b
  {
    forall v ensures v in a <==> v in b {
      if v in a { var i :| 0 <= i < |a| && a[i] == v; assert m[v.id] in b; }
      if v in b { var i :| 0 <= i < |b| && b[i] == v; assert m[v.id] in a; }
    }
    StrictUnique(a, b);
  }

  /** The export does not depend on the order in which the maps iterate. */
  lemma ExportUnique(c: Contents, a: Snapshot, b: Snapshot)
    requires Exports(c, a) && Exports(c, b)
    ensures a == b
  {
    SameRecordsUnique(a.apis, b.apis, c.apis);
    SameRecordsUnique(a.domainNames, b.domainNames, c.domainNames);
    SameRecordsUnique(a.vpcLinks, b.vpcLinks, c.vpcLinks);
    SameRecordsUnique(a.tags, b.tags, TagRecords(c.tags));
  }

  /** The import of an export is the exporting store. */
  lemma RoundTrip(c: Contents, s: Snapshot)
    requires Keyed(c) && Exports(c, s)
    ensures Import(s) == c
  {
    ImportExport(c.apis, s.apis);
    ImportExport(c.domainNames, s.domainNames);
    ImportExport(c.vpcLinks, s.vpcLinks);
    ImportExport(TagRecords(c.tags), s.tags);
    assert TagsOf(TagRecords(c.tags)) == c.tags;
  }

  class ApiStore {
    var apis: map<string, Api>
    var domainNames: map<string, Described>
    var vpcLinks: map<string, Described>
    var tags: map<string, Tags>

    function View(): Contents
      reads this
    {
      Contents(apis, domainNames, vpcLinks, tags)
    }

    constructor ()
      ensures View() == Contents(map[], map[], map[], map[]) && Keyed(View())
    {
      apis, domainNames, vpcLinks, tags := map[], map[], map[], map[];
    }

    method ExportSnapshot() returns (s: Snapshot)
      ensures Keyed(View()) ==> Exports(View(), s)
      ensures Import(s) == View() <==> Keyed(View())
    {
      var a := SortedValues(apis);
      var d := SortedValues(domainNames);
      var v := SortedValues(vpcLinks);
      var t := SortedValues(TagRecords(tags));
      s := Snapshot(a, d, v, t);
      ImportExport(apis, a);
      ImportExport(domainNames, d);
      ImportExport(vpcLinks, v);
      ImportExport(TagRecords(tags), t);
      assert TagsOf(TagRecords(tags)) == tags;
    }

    method ImportSnapshot(s: Snapshot)
      modifies this
      ensures View() == Import(s) && Keyed(View())
    {
      apis, domainNames, vpcLinks, tags := map[], map[], map[], map[];
      apis := InsertAll(s.apis);
      domainNames := InsertAll(s.domainNames);
      vpcLinks := InsertAll(s.vpcLinks);
      var records := InsertAll(s.tags);
      tags := TagsOf(records);
    }
  }

  /** A store exported and imported into another reproduces it there, whatever was
      there before. */
  method Transfer(from: ApiStore, into: ApiStore)
    requires from != into && Keyed(from.View())
    modifies into
    ensures into.View() == from.View() == old(from.View())
  {
    var s := from.ExportSnapshot();
    into.ImportSnapshot(s);
  }
}

/** Usage metering (src/metrics/federated-prometheus.go): scraped samples upserted into a table,
    and the totals per tenant and per namespace taken from it. */
module UsageMeter {
  import opened Text
  import opened Integers
  import opened CounterSums
  import opened TopicNames
  import Groups

  const IN_BYTES := "pulsar_in_bytes_total"
  const IN_MESSAGES := "pulsar_in_messages_total"
  const OUT_BYTES := "pulsar_out_bytes_total"
  const OUT_MESSAGES := "pulsar_out_messages_total"
  const MSG_BACKLOG := "pulsar_msg_backlog"

  const TENANT_METRIC_NAMES := {IN_BYTES, IN_MESSAGES, OUT_BYTES, OUT_MESSAGES, MSG_BACKLOG}

  datatype Row = Row(id: string, tenant: string, namespace: string, topic: string, broker: string, counters: Counters)

  datatype Usage = Usage(name: string, counters: Counters)

  /** A sample's labels in order, and its value. */
  datatype Sample = Sample(labels: seq<(string, string)>, counter: U64)

  type Family = (string, seq<Sample>)
  type Table = map<string, Row>

  datatype State = State(table: Table, tenants: set<string>)

  const EMPTY := State(map[], {})

  function TenantOf(r: Row): string { r.tenant }

  function NamespaceOf(r: Row): string { r.namespace }

  // ---- Upserting ----

  function Tally(metric: string, counter: U64): Option<Counters> {
    if metric == IN_BYTES then Some(ZERO.(bytesIn := counter))
    else if metric == IN_MESSAGES then Some(ZERO.(messagesIn := counter))
    else if metric == OUT_BYTES then Some(ZERO.(bytesOut := counter))
    else if metric == OUT_MESSAGES then Some(ZERO.(messagesOut := counter))
    else if metric == MSG_BACKLOG then Some(ZERO.(backlog := counter))
    else None
  }

  /** The row a sample makes, if its topic name and metric name are good. */
  function RowOf(topic: string, broker: string, metric: string, counter: U64): Option<Row> {
    match ExtractPartsFromTopicFn(topic)
    case None => None
    case Some(p) =>
      match Tally(metric, counter)
      case None => None
      case Some(c) => Some(Row(p.0 + p.1 + p.2 + broker + metric, p.0, p.1, p.2, broker, c))
  }

  /** The table refuses a row with an empty indexed field. */
  predicate Indexed(r: Row) {
    r.tenant != "" && r.namespace != "" && r.topic != ""
  }

  function Upsert(st: State, row: Option<Row>): State {
    match row
    case None => st
    case Some(r) => State(if Indexed(r) then st.table[r.id := r] else st.table, st.tenants + {r.tenant})
  }

  /** The value of the last label pair with that name. */
  function LabelValue(labels: seq<(string, string)>, name: string): string {
    if labels == [] then ""
    else if labels[|labels| - 1].0 == name then labels[|labels| - 1].1
    else LabelValue(labels[..|labels| - 1], name)
  }

  function SampleRow(metric: string, s: Sample): Option<Row> {
    RowOf(LabelValue(s.labels, "topic"), LabelValue(s.labels, "kubernetes_pod_name"), metric, s.counter)
  }

  function AddSamples(st: State, metric: string, samples: seq<Sample>): State {
    if samples == [] then st
    else Upsert(AddSamples(st, metric, samples[..|samples| - 1]), SampleRow(metric, samples[|samples| - 1]))
  }

  /** One scrape, its metric families in the order they are visited. */
  function Scrape(st: State, families: seq<Family>): State {
    if families == [] then st
    else
      var before := Scrape(st, families[..|families| - 1]);
      var (metric, samples) := families[|families| - 1];
      if metric in TENANT_METRIC_NAMES then AddSamples(before, metric, samples) else before
  }

  // ---- The order of the families does not matter ----

  predicate EndsWith(s: string, suffix: string) {
    |suffix| <= |s| && s[|s| - |suffix|..] == suffix
  }

  /** No metric name is a suffix of another. */
  lemma OnlySuffixIsItself(a: string, b: string)
    requires a in TENANT_METRIC_NAMES && b in TENANT_METRIC_NAMES && EndsWith(b, a)
    ensures a == b
  {
  }

  lemma SuffixesNest(s: string, a: string, b: string)
    requires EndsWith(s, a) && EndsWith(s, b) && |a| <= |b|
    ensures EndsWith(b, a)
  {
  }

  lemma MetricOfId(id: string, a: string, b: string)
    requires a in TENANT_METRIC_NAMES && b in TENANT_METRIC_NAMES
    requires EndsWith(id, a) && EndsWith(id, b)
    ensures a == b
  {
    if |a| <= |b| {
      SuffixesNest(id, a, b);
      OnlySuffixIsItself(a, b);
    } else {
      SuffixesNest(id, b, a);
      OnlySuffixIsItself(b, a);
    }
  }

  function Get(t: Table, id: string): Option<Row> {
    if id in t then Some(t[id]) else None
  }

  function Or(first: Option<Row>, second: Option<Row>): Option<Row> {
    if first.Some? then first else second
  }

  /** The row a family leaves under `id`: its last sample with that id decides. */
  function FamilyRow(f: Family, id: string): Option<Row>
    decreases |f.1|
  {
    if f.1 == [] then None
    else
      var row := SampleRow(f.0, f.1[|f.1| - 1]);
      if row.Some? && Indexed(row.value) && row.value.id == id then row
      else FamilyRow((f.0, f.1[..|f.1| - 1]), id)
  }

  function FamilyTenants(f: Family): set<string>
    decreases |f.1|
  {
    if f.1 == [] then {}
    else
      var row := SampleRow(f.0, f.1[|f.1| - 1]);
      FamilyTenants((f.0, f.1[..|f.1| - 1])) + if row.Some? then {row.value.tenant} else {}
  }

  lemma {:induction false} FamilyRowId(f: Family, id: string)
    requires FamilyRow(f, id).Some?
    ensures EndsWith(id, f.0) && FamilyRow(f, id).value.id == id
    decreases |f.1|
  {
    var last := f.1[|f.1| - 1];
    var row := SampleRow(f.0, last);
    if row.Some? && Indexed(row.value) && row.value.id == id {
      var p := ExtractPartsFromTopicFn(LabelValue(last.labels, "topic")).value;
      var stem := p.0 + p.1 + p.2 + LabelValue(last.labels, "kubernetes_pod_name");
      assert id == stem + f.0;
    } else {
      FamilyRowId((f.0, f.1[..|f.1| - 1]), id);
    }
  }

  lemma {:induction false} AddSamplesGet(st: State, f: Family, id: string)
    ensures Get(AddSamples(st, f.0, f.1).table, id) == Or(FamilyRow(f, id), Get(st.table, id))
    ensures AddSamples(st, f.0, f.1).tenants == st.tenants + FamilyTenants(f)
    decreases |f.1|
  {
    if f.1 != [] {
      AddSamplesGet(st, (f.0, f.1[..|f.1| - 1]), id);
    }
  }

  function ScrapeRow(families: seq<Family>, id: string): Option<Row> {
    if families == [] then None
    else
      var last := families[|families| - 1];
      Or(if last.0 in TENANT_METRIC_NAMES then FamilyRow(last, id) else None,
         ScrapeRow(families[..|families| - 1], id))
  }

  function ScrapeTenants(families: seq<Family>): set<string> {
    if families == [] then {}
    else
      var last := families[|families| - 1];
      ScrapeTenants(families[..|families| - 1]) +
      if last.0 in TENANT_METRIC_NAMES then FamilyTenants(last) else {}
  }

  /** What a scrape leaves under an id, and which tenants it notes. */
  lemma {:induction false} ScrapeGet(st: State, families: seq<Family>, id: string)
    ensures Get(Scrape(st, families).table, id) == Or(ScrapeRow(families, id), Get(st.table, id))
    ensures Scrape(st, families).tenants == st.tenants + ScrapeTenants(families)
  {
    if families != [] {
      var front, last := families[..|families| - 1], families[|families| - 1];
      ScrapeGet(st, front, id);
      AddSamplesGet(Scrape(st, front), last, id);
    }
  }

  lemma {:induction false} ScrapeRowFrom(families: seq<Family>, id: string)
    ensures ScrapeRow(families, id).Some? ==>
              exists f :: f in families && f.0 in TENANT_METRIC_NAMES && FamilyRow(f, id) == ScrapeRow(families, id)
    ensures forall f :: f in families && f.0 in TENANT_METRIC_NAMES && FamilyRow(f, id).Some? ==>
                          ScrapeRow(families, id).Some?
  {
    if families != [] {
      var front, last := families[..|families| - 1], families[|families| - 1];
      ScrapeRowFrom(front, id);
      assert families == front + [last];
    }
  }

  lemma {:induction false} ScrapeTenantsFrom(families: seq<Family>, t: string)
    ensures t in ScrapeTenants(families) <==>
            exists f :: f in families && f.0 in TENANT_METRIC_NAMES && t in FamilyTenants(f)
  {
    if families != [] {
      ScrapeTenantsFrom(families[..|families| - 1], t);
      assert families == families[..|families| - 1] + [families[|families| - 1]];
    }
  }

  /** The families of one scrape, one per metric name, visited in another order. */
  ghost predicate SameFamilies(a: seq<Family>, b: seq<Family>) {
    && (forall f, g :: f in a && g in a && f.0 == g.0 ==> f == g)
    && (forall f :: f in a <==> f in b)
  }

  lemma ScrapeRowSame(a: seq<Family>, b: seq<Family>, id: string)
    requires SameFamilies(a, b)
    ensures ScrapeRow(a, id) == ScrapeRow(b, id)
  {
    ScrapeRowFrom(a, id);
    ScrapeRowFrom(b, id);
    if ScrapeRow(a, id).Some? {
      var f :| f in a && f.0 in TENANT_METRIC_NAMES && FamilyRow(f, id) == ScrapeRow(a, id);
      var g :| g in b && g.0 in TENANT_METRIC_NAMES && FamilyRow(g, id) == ScrapeRow(b, id);
      FamilyRowId(f, id);
      FamilyRowId(g, id);
      MetricOfId(id, f.0, g.0);
    }
  }

  lemma SameGets(a: Table, b: Table)
    requires forall id :: Get(a, id) == Get(b, id)
    ensures a == b
  {
    forall id
      ensures (id in a <==> id in b) && (id in a ==> a[id] == b[id])
    {
      assert Get(a, id) == Get(b, id);
    }
  }

  /** Every order in which a scrape's families are visited gives the same table and tenants. */
  lemma ScrapeOrderIrrelevant(st: State, a: seq<Family>, b: seq<Family>)
    requires SameFamilies(a, b)
    ensures Scrape(st, a) == Scrape(st, b)
  {
    forall id
      ensures Get(Scrape(st, a).table, id) == Get(Scrape(st, b).table, id)
    {
      ScrapeGet(st, a, id);
      ScrapeGet(st, b, id);
      ScrapeRowSame(a, b, id);
    }
    SameGets(Scrape(st, a).table, Scrape(st, b).table);
    ScrapeGet(st, a, "");
    ScrapeGet(st, b, "");
    forall t
      ensures t in ScrapeTenants(a) <==> t in ScrapeTenants(b)
    {
      ScrapeTenantsFrom(a, t);
      ScrapeTenantsFrom(b, t);
    }
  }

  /** Taking in the same scrape again, in any order, changes nothing. */
  lemma ScrapeAgain(st: State, a: seq<Family>, b: seq<Family>)
    requires SameFamilies(a, b)
    ensures Scrape(Scrape(st, a), b) == Scrape(st, a)
  {
    var once := Scrape(st, a);
    ScrapeOrderIrrelevant(once, a, b);
    forall id
      ensures Get(Scrape(once, a).table, id) == Get(once.table, id)
    {
      ScrapeGet(st, a, id);
      ScrapeGet(once, a, id);
    }
    SameGets(Scrape(once, a).table, once.table);
    ScrapeGet(st, a, "");
    ScrapeGet(once, a, "");
  }

  // ---- Every reachable table ----

  /** Rows stand under their own id, and their tenants are noted. */
  ghost predicate Sound(st: State) {
    forall id :: id in st.table ==> st.table[id].id == id && st.table[id].tenant in st.tenants
  }

  lemma {:induction false} AddSamplesSound(st: State, metric: string, samples: seq<Sample>)
    requires Sound(st)
    ensures Sound(AddSamples(st, metric, samples))
  {
    if samples != [] {
      AddSamplesSound(st, metric, samples[..|samples| - 1]);
    }
  }

  lemma {:induction false} ScrapeSound(st: State, families: seq<Family>)
    requires Sound(st)
    ensures Sound(Scrape(st, families))
  {
    if families != [] {
      var front, last := families[..|families| - 1], families[|families| - 1];
      ScrapeSound(st, front);
      AddSamplesSound(Scrape(st, front), last.0, last.1);
    }
  }

  function Scrapes(scrapes: seq<seq<Family>>): State {
    if scrapes == [] then EMPTY else Scrape(Scrapes(scrapes[..|scrapes| - 1]), scrapes[|scrapes| - 1])
  }

  lemma {:induction false} ReachableSound(scrapes: seq<seq<Family>>)
    ensures Sound(Scrapes(scrapes))
  {
    if scrapes != [] {
      ReachableSound(scrapes[..|scrapes| - 1]);
      ScrapeSound(Scrapes(scrapes[..|scrapes| - 1]), scrapes[|scrapes| - 1]);
    }
  }

  // ---- Totals ----

  function CountersIn(rows: seq<Row>): (cs: seq<Counters>)
    ensures |cs| == |rows|
  {
    seq(|rows|, i requires 0 <= i < |rows| => rows[i].counters)
  }

  function Total(rows: seq<Row>): Counters {
    Sum(CountersIn(rows))
  }

  lemma TotalAppend(a: seq<Row>, b: seq<Row>)
    ensures Total(a + b) == Plus(Total(a), Total(b))
  {
    assert CountersIn(a + b) == CountersIn(a) + CountersIn(b);
    SumAppend(CountersIn(a), CountersIn(b));
  }

  lemma TotalLast(rows: seq<Row>, r: Row)
    ensures Total(rows + [r]) == Plus(Total(rows), r.counters)
  {
    assert CountersIn(rows + [r]) == CountersIn(rows) + [r.counters];
    SumLast(CountersIn(rows), r.counters);
  }

  lemma {:induction false} CountersInPermutes(a: seq<Row>, b: seq<Row>)
    requires multiset(a) == multiset(b)
    ensures multiset(CountersIn(a)) == multiset(CountersIn(b))
    decreases |a|
  {
    if a != [] {
      var i := Groups.PermuteRemove(a, b);
      var front, before, after := a[..|a| - 1], b[..i], b[i + 1..];
      CountersInPermutes(front, before + after);
      assert CountersIn(a) == CountersIn(front) + [b[i].counters];
      assert CountersIn(b) == CountersIn(before) + [b[i].counters] + CountersIn(after);
      assert CountersIn(before + after) == CountersIn(before) + CountersIn(after);
    } else {
      assert |multiset(b)| == |b|;
    }
  }

  lemma TotalPermutes(a: seq<Row>, b: seq<Row>)
    requires multiset(a) == multiset(b)
    ensures Total(a) == Total(b)
  {
    CountersInPermutes(a, b);
    SumPermutes(CountersIn(a), CountersIn(b));
  }

  /** The totals of the groups `ks`, added up. */
  function GroupTotals(rows: seq<Row>, key: Row -> string, ks: seq<string>): Counters {
    if ks == [] then ZERO
    else Plus(Total(Groups.Select(rows, key, ks[0])), GroupTotals(rows, key, ks[1..]))
  }

  lemma {:induction false} GroupTotalsGather(rows: seq<Row>, key: Row -> string, ks: seq<string>)
    ensures GroupTotals(rows, key, ks) == Total(Groups.Gather(rows, key, ks))
  {
    if ks != [] {
      GroupTotalsGather(rows, key, ks[1..]);
      TotalAppend(Groups.Select(rows, key, ks[0]), Groups.Gather(rows, key, ks[1..]));
    }
  }

  /** Over distinct keys that cover the rows, the totals of the groups add up to the whole total. */
  lemma GroupTotalsAddUp(rows: seq<Row>, key: Row -> string, ks: seq<string>)
    requires Distinct(ks) && Groups.Covers(rows, key, ks)
    ensures GroupTotals(rows, key, ks) == Total(rows)
  {
    GroupTotalsGather(rows, key, ks);
    Groups.GatherPermutes(rows, key, ks);
    TotalPermutes(Groups.Gather(rows, key, ks), rows);
  }

  /** The tenant index: the tenant's rows, each once, in any order. */
  ghost predicate TenantIndex(table: Table, tenant: string, index: seq<Row>) {
    && Distinct(index)
    && forall r :: r in index <==> r.id in table && table[r.id] == r && r.tenant == tenant
  }

  ghost predicate FullIndex(table: Table, index: seq<Row>) {
    && Distinct(index)
    && forall r :: r in index <==> r.id in table && table[r.id] == r
  }

  lemma {:induction false} DistinctCount<T>(s: seq<T>, x: T)
    requires Distinct(s)
    ensures multiset(s)[x] == if x in s then 1 else 0
  {
    if s != [] {
      var front, last := s[..|s| - 1], s[|s| - 1];
      DistinctCount(front, x);
      assert s == front + [last];
    }
  }

  lemma SameMembersPermute<T(!new)>(a: seq<T>, b: seq<T>)
    requires Distinct(a) && Distinct(b)
    requires forall x :: x in a <==> x in b
    ensures multiset(a) == multiset(b)
  {
    forall x
      ensures multiset(a)[x] == multiset(b)[x]
    {
      DistinctCount(a, x);
      DistinctCount(b, x);
    }
  }

  lemma {:induction false} SelectDistinct(rows: seq<Row>, key: Row -> string, k: string)
    requires Distinct(rows)
    ensures Distinct(Groups.Select(rows, key, k))
  {
    if rows != [] {
      var front, last := rows[..|rows| - 1], rows[|rows| - 1];
      SelectDistinct(front, key, k);
      var group := Groups.Select(front, key, k);
      forall i | 0 <= i < |group|
        ensures group[i] != last
      {
        Groups.SelectIn(front, key, k, group[i]);
      }
    }
  }

  /** A tenant's total is that of its rows within any full listing. */
  lemma TenantTotal(table: Table, tenant: string, index: seq<Row>, all: seq<Row>)
    requires TenantIndex(table, tenant, index) && FullIndex(table, all)
    ensures Total(index) == Total(Groups.Select(all, TenantOf, tenant))
  {
    var group := Groups.Select(all, TenantOf, tenant);
    SelectDistinct(all, TenantOf, tenant);
    forall r
      ensures r in index <==> r in group
    {
      Groups.SelectIn(all, TenantOf, tenant, r);
    }
    SameMembersPermute(index, group);
    TotalPermutes(index, group);
  }

  // ---- What GetTenantNamespacesUsage returns ----

  function Key(tenant: string, namespace: string): string {
    tenant + "/" + namespace
  }

  lemma KeyInjective(tenant: string, a: string, b: string)
    requires Key(tenant, a) == Key(tenant, b)
    ensures a == b
  {
    assert Key(tenant, a)[|tenant| + 1..] == a && Key(tenant, b)[|tenant| + 1..] == b;
  }

  ghost predicate UsageAt(index: seq<Row>, tenant: string, usages: map<string, Usage>, ns: string) {
    var key := Key(tenant, ns);
    var group := Groups.Select(index, NamespaceOf, ns);
    if key in usages then group != [] && usages[key] == Usage(key, Total(group)) else group == []
  }

  /** One usage for each namespace with a row, and no other. */
  ghost predicate NamespaceUsages(index: seq<Row>, tenant: string, usages: map<string, Usage>) {
    && (forall ns :: UsageAt(index, tenant, usages, ns))
    && (forall key :: key in usages ==> exists ns :: key == Key(tenant, ns))
  }

  lemma NamespaceUsagesNext(index: seq<Row>, p: Row, tenant: string, before: map<string, Usage>, after: map<string, Usage>)
    requires NamespaceUsages(index, tenant, before)
    requires var key := Key(tenant, p.namespace);
             after == before[key := Usage(key, Plus(if key in before then before[key].counters else ZERO, p.counters))]
    ensures NamespaceUsages(index + [p], tenant, after)
  {
    var longer := index + [p];
    forall ns
      ensures UsageAt(longer, tenant, after, ns)
    {
      assert UsageAt(index, tenant, before, ns);
      Groups.SelectLast(index, p, NamespaceOf, ns);
      var group := Groups.Select(index, NamespaceOf, ns);
      if ns == p.namespace {
        TotalLast(group, p);
      } else {
        assert group + [] == group;
        assert Key(tenant, ns) != Key(tenant, p.namespace) by {
          if Key(tenant, ns) == Key(tenant, p.namespace) {
            KeyInjective(tenant, ns, p.namespace);
          }
        }
      }
    }
  }

  function SumOver(usages: map<string, Usage>, tenant: string, namespaces: seq<string>): Counters
    requires forall ns :: ns in namespaces ==> Key(tenant, ns) in usages
  {
    if namespaces == [] then ZERO
    else Plus(usages[Key(tenant, namespaces[0])].counters, SumOver(usages, tenant, namespaces[1..]))
  }

  lemma {:induction false} SumOverGroups(index: seq<Row>, tenant: string, usages: map<string, Usage>, namespaces: seq<string>)
    requires NamespaceUsages(index, tenant, usages)
    requires forall ns :: ns in namespaces ==> Key(tenant, ns) in usages
    ensures SumOver(usages, tenant, namespaces) == GroupTotals(index, NamespaceOf, namespaces)
  {
    if namespaces != [] {
      assert UsageAt(index, tenant, usages, namespaces[0]);
      SumOverGroups(index, tenant, usages, namespaces[1..]);
    }
  }

  /** Conservation within a tenant: the usages of its namespaces add up, modulo 2^64, to its own,
      whatever order either reading of the index had. */
  lemma NamespacesAddUp(table: Table, tenant: string, index: seq<Row>, again: seq<Row>,
                        usages: map<string, Usage>, namespaces: seq<string>)
    requires TenantIndex(table, tenant, index) && TenantIndex(table, tenant, again)
    requires NamespaceUsages(index, tenant, usages)
    requires Distinct(namespaces) && forall ns :: ns in namespaces <==> Key(tenant, ns) in usages
    ensures SumOver(usages, tenant, namespaces) == Total(again)
  {
    forall r | r in index
      ensures r.namespace in namespaces
    {
      assert UsageAt(index, tenant, usages, r.namespace);
      Groups.SelectIn(index, NamespaceOf, r.namespace, r);
    }
    SumOverGroups(index, tenant, usages, namespaces);
    GroupTotalsAddUp(index, NamespaceOf, namespaces);
    SameMembersPermute(index, again);
    TotalPermutes(index, again);
  }

  function SumUsages(usages: seq<Usage>): Counters {
    if usages == [] then ZERO else Plus(usages[0].counters, SumUsages(usages[1..]))
  }

  lemma {:induction false} SumUsagesGroups(table: Table, usages: seq<Usage>, indexes: seq<seq<Row>>, all: seq<Row>, tenants: seq<string>)
    requires |usages| == |indexes| == |tenants| && FullIndex(table, all)
    requires forall i :: 0 <= i < |usages| ==>
               TenantIndex(table, tenants[i], indexes[i]) && usages[i] == Usage(tenants[i], Total(indexes[i]))
    ensures SumUsages(usages) == GroupTotals(all, TenantOf, tenants)
    decreases |usages|
  {
    if usages != [] {
      TenantTotal(table, tenants[0], indexes[0], all);
      SumUsagesGroups(table, usages[1..], indexes[1..], all, tenants[1..]);
    }
  }

  /** Conservation over the whole table: the usages of the noted tenants add up, modulo 2^64, to the
      total of all rows, for every table scrapes can build. */
  lemma TenantsAddUp(scrapes: seq<seq<Family>>, usages: seq<Usage>, indexes: seq<seq<Row>>, all: seq<Row>, tenants: seq<string>)
    requires var st := Scrapes(scrapes);
             && FullIndex(st.table, all)
             && Distinct(tenants) && (forall t :: t in tenants <==> t in st.tenants)
             && |usages| == |indexes| == |tenants|
             && forall i :: 0 <= i < |usages| ==>
                  TenantIndex(st.table, tenants[i], indexes[i]) && usages[i] == Usage(tenants[i], Total(indexes[i]))
    ensures SumUsages(usages) == Total(all)
  {
    ReachableSound(scrapes);
    SumUsagesGroups(Scrapes(scrapes).table, usages, indexes, all, tenants);
    GroupTotalsAddUp(all, TenantOf, tenants);
  }

  // ---- From the samples to the totals ----

  /** The rows the table takes from a family's samples, in their order. */
  function FamilyRows(metric: string, samples: seq<Sample>): seq<Row> {
    if samples == [] then []
    else
      var row := SampleRow(metric, samples[|samples| - 1]);
      FamilyRows(metric, samples[..|samples| - 1]) + if row.Some? && Indexed(row.value) then [row.value] else []
  }

  function ScrapedRows(families: seq<Family>): seq<Row> {
    if families == [] then []
    else
      var last := families[|families| - 1];
      ScrapedRows(families[..|families| - 1]) +
      if last.0 in TENANT_METRIC_NAMES then FamilyRows(last.0, last.1) else []
  }

  function Put(t: Table, rows: seq<Row>): Table {
    if rows == [] then t else Put(t, rows[..|rows| - 1])[rows[|rows| - 1].id := rows[|rows| - 1]]
  }

  lemma PutLast(t: Table, rows: seq<Row>, r: Row)
    ensures Put(t, rows + [r]) == Put(t, rows)[r.id := r]
  {
  }

  lemma {:induction false} PutAppend(t: Table, a: seq<Row>, b: seq<Row>)
    ensures Put(t, a + b) == Put(Put(t, a), b)
    decreases |b|
  {
    if b == [] {
      assert a + b == a;
    } else {
      var front, last := b[..|b| - 1], b[|b| - 1];
      PutAppend(t, a, front);
      assert a + b == a + front + [last];
      PutLast(t, a + front, last);
    }
  }

  lemma {:induction false} AddSamplesPuts(st: State, metric: string, samples: seq<Sample>)
    ensures AddSamples(st, metric, samples).table == Put(st.table, FamilyRows(metric, samples))
  {
    if samples != [] {
      var front := samples[..|samples| - 1];
      AddSamplesPuts(st, metric, front);
      var row := SampleRow(metric, samples[|samples| - 1]);
      if row.Some? && Indexed(row.value) {
        PutLast(st.table, FamilyRows(metric, front), row.value);
      } else {
        assert FamilyRows(metric, samples) == FamilyRows(metric, front);
      }
    }
  }

  lemma {:induction false} ScrapePuts(st: State, families: seq<Family>)
    ensures Scrape(st, families).table == Put(st.table, ScrapedRows(families))
  {
    if families != [] {
      var front, last := families[..|families| - 1], families[|families| - 1];
      ScrapePuts(st, front);
      if last.0 in TENANT_METRIC_NAMES {
        AddSamplesPuts(Scrape(st, front), last.0, last.1);
        PutAppend(st.table, ScrapedRows(front), FamilyRows(last.0, last.1));
      } else {
        assert ScrapedRows(families) == ScrapedRows(front);
      }
    }
  }

  /** The rows taken in by all scrapes so far, oldest first. */
  function AllRows(scrapes: seq<seq<Family>>): seq<Row> {
    if scrapes == [] then [] else AllRows(scrapes[..|scrapes| - 1]) + ScrapedRows(scrapes[|scrapes| - 1])
  }

  lemma {:induction false} ScrapesPut(scrapes: seq<seq<Family>>)
    ensures Scrapes(scrapes).table == Put(map[], AllRows(scrapes))
  {
    if scrapes != [] {
      var front, last := scrapes[..|scrapes| - 1], scrapes[|scrapes| - 1];
      ScrapesPut(front);
      ScrapePuts(Scrapes(front), last);
      PutAppend(map[], AllRows(front), ScrapedRows(last));
    }
  }

  /** The table holds the last row of each id. */
  lemma {:induction false} PutAt(rows: seq<Row>, id: string) returns (i: int)
    ensures i < |rows| && (i >= 0 <==> id in Put(map[], rows))
    ensures i >= 0 ==> rows[i].id == id && Put(map[], rows)[id] == rows[i]
    ensures forall j :: i < j < |rows| && 0 <= j ==> rows[j].id != id
  {
    if rows == [] {
      i := -1;
    } else if rows[|rows| - 1].id == id {
      i := |rows| - 1;
    } else {
      i := PutAt(rows[..|rows| - 1], id);
    }
  }

  ghost predicate DistinctRowIds(rows: seq<Row>) {
    forall i, j :: 0 <= i < j < |rows| ==> rows[i].id != rows[j].id
  }

  /** One counter of one topic on one broker. */
  predicate SameSeries(a: Row, b: Row) {
    a.tenant == b.tenant && a.namespace == b.namespace && a.topic == b.topic && a.broker == b.broker && a.id == b.id
  }

  ghost predicate Latest(rows: seq<Row>, i: nat)
    requires i < |rows|
  {
    forall j :: i < j < |rows| ==> !SameSeries(rows[j], rows[i])
  }

  /** No two series run together under one id. */
  ghost predicate NoCollision(rows: seq<Row>) {
    forall i, j :: 0 <= i < |rows| && 0 <= j < |rows| && rows[i].id == rows[j].id ==> SameSeries(rows[i], rows[j])
  }

  lemma {:induction false} LatestOf(rows: seq<Row>, i: nat) returns (k: nat)
    requires i < |rows|
    ensures i <= k < |rows| && SameSeries(rows[k], rows[i]) && Latest(rows, k)
    decreases |rows| - i
  {
    if Latest(rows, i) {
      k := i;
    } else {
      var j :| i < j < |rows| && SameSeries(rows[j], rows[i]);
      k := LatestOf(rows, j);
    }
  }

  ghost predicate Stands(t: Table, r: Row) {
    r.id in t && t[r.id] == r
  }

  ghost predicate LatestStand(rows: seq<Row>, t: Table) {
    forall i :: 0 <= i < |rows| && Latest(rows, i) ==> Stands(t, rows[i])
  }

  lemma LatestStandIff(rows: seq<Row>)
    ensures LatestStand(rows, Put(map[], rows)) <==> NoCollision(rows)
  {
    var t := Put(map[], rows);
    if NoCollision(rows) {
      forall i | 0 <= i < |rows| && Latest(rows, i)
        ensures Stands(t, rows[i])
      {
        var k := PutAt(rows, rows[i].id);
      }
    }
    if LatestStand(rows, t) {
      forall i, j | 0 <= i < |rows| && 0 <= j < |rows| && rows[i].id == rows[j].id
        ensures SameSeries(rows[i], rows[j])
      {
        var a := LatestOf(rows, i);
        var b := LatestOf(rows, j);
        assert Stands(t, rows[a]) && Stands(t, rows[b]);
      }
    }
  }

  /** Over every run of scrapes: the table holds the latest row of every series exactly when no two
      series of the run share an id. */
  lemma RunKeepsLatestIff(scrapes: seq<seq<Family>>)
    ensures LatestStand(AllRows(scrapes), Scrapes(scrapes).table) <==> NoCollision(AllRows(scrapes))
  {
    ScrapesPut(scrapes);
    LatestStandIff(AllRows(scrapes));
  }

  /** The latest row of every series, in the order they were taken in. */
  ghost function LatestRows(rows: seq<Row>): seq<Row> {
    if rows == [] then []
    else
      (if exists r :: r in rows[1..] && SameSeries(r, rows[0]) then [] else [rows[0]]) + LatestRows(rows[1..])
  }

  lemma {:induction false} LatestRowsAre(rows: seq<Row>, r: Row)
    ensures r in LatestRows(rows) <==> exists i :: 0 <= i < |rows| && Latest(rows, i) && rows[i] == r
  {
    if rows != [] {
      var rest := rows[1..];
      LatestRowsAre(rest, r);
      LatestFirst(rows);
      forall i | 0 <= i < |rest|
        ensures Latest(rest, i) <==> Latest(rows, i + 1)
      {
        LatestRest(rows, i);
      }
      if r in LatestRows(rest) {
        var i :| 0 <= i < |rest| && Latest(rest, i) && rest[i] == r;
        assert Latest(rows, i + 1) && rows[i + 1] == r;
      }
      if i :| 0 < i < |rows| && Latest(rows, i) && rows[i] == r {
        assert Latest(rest, i - 1) && rest[i - 1] == r;
      }
    }
  }

  lemma LatestFirst(rows: seq<Row>)
    requires rows != []
    ensures Latest(rows, 0) <==> !exists r :: r in rows[1..] && SameSeries(r, rows[0])
  {
    forall j | 0 < j < |rows|
      ensures rows[j] in rows[1..]
    {
      assert rows[j] == rows[1..][j - 1];
    }
  }

  lemma LatestRest(rows: seq<Row>, i: nat)
    requires i + 1 < |rows|
    ensures Latest(rows[1..], i) <==> Latest(rows, i + 1)
  {
    var rest := rows[1..];
    if Latest(rest, i) {
      forall j | i + 1 < j < |rows|
        ensures !SameSeries(rows[j], rows[i + 1])
      {
        assert rows[j] == rest[j - 1];
      }
    }
  }

  lemma {:induction false} LatestRowsDistinct(rows: seq<Row>)
    ensures Distinct(LatestRows(rows))
  {
    if rows != [] {
      var rest := rows[1..];
      LatestRowsDistinct(rest);
      LatestRowsAre(rest, rows[0]);
      if rows[0] !in LatestRows(rest) {
        assert Distinct([rows[0]] + LatestRows(rest));
      } else {
        assert rows[0] in rest && LatestRows(rows) == LatestRows(rest);
      }
    }
  }

  /** Without collisions the latest rows are a listing of the table. */
  lemma LatestRowsIndex(scrapes: seq<seq<Family>>)
    requires NoCollision(AllRows(scrapes))
    ensures FullIndex(Scrapes(scrapes).table, LatestRows(AllRows(scrapes)))
  {
    var rows := AllRows(scrapes);
    ScrapesPut(scrapes);
    LatestStandIff(rows);
    LatestRowsDistinct(rows);
    forall r
      ensures r in LatestRows(rows) <==> Stands(Scrapes(scrapes).table, r)
    {
      LatestRowsAre(rows, r);
      if Stands(Scrapes(scrapes).table, r) {
        var i := PutAt(rows, r.id);
        assert Latest(rows, i);
      }
    }
  }

  /** Conservation from the samples to the usages: after any run of scrapes without collisions the
      tenants' usages add up, modulo 2^64, to the latest value of every series, and so does any listing
      of the table. */
  lemma RunAddsUp(scrapes: seq<seq<Family>>, usages: seq<Usage>, indexes: seq<seq<Row>>, all: seq<Row>, tenants: seq<string>)
    requires NoCollision(AllRows(scrapes))
    requires var st := Scrapes(scrapes);
             && FullIndex(st.table, all)
             && Distinct(tenants) && (forall t :: t in tenants <==> t in st.tenants)
             && |usages| == |indexes| == |tenants|
             && forall i :: 0 <= i < |usages| ==>
                  TenantIndex(st.table, tenants[i], indexes[i]) && usages[i] == Usage(tenants[i], Total(indexes[i]))
    ensures SumUsages(usages) == Total(all) == Total(LatestRows(AllRows(scrapes)))
  {
    var rows := LatestRows(AllRows(scrapes));
    LatestRowsIndex(scrapes);
    SameMembersPermute(all, rows);
    TotalPermutes(all, rows);
    TenantsAddUp(scrapes, usages, indexes, all, tenants);
  }

  /** When no id repeats, as in a scrape without collisions, every row taken in is the latest. */
  lemma {:induction false} DistinctAreLatest(rows: seq<Row>)
    requires DistinctRowIds(rows)
    ensures NoCollision(rows) && LatestRows(rows) == rows
  {
    if rows != [] {
      DistinctAreLatest(rows[1..]);
      LatestFirst(rows);
    }
  }

  lemma PutSize(t: Table, r: Row)
    ensures |t[r.id := r]| == if r.id in t then |t| else |t| + 1
  {
    assert t[r.id := r].Keys == t.Keys + {r.id};
  }

  lemma DistinctLast(front: seq<Row>, last: Row)
    ensures DistinctRowIds(front + [last]) <==>
            DistinctRowIds(front) && forall i :: 0 <= i < |front| ==> front[i].id != last.id
  {
    var rows := front + [last];
    assert forall i :: 0 <= i < |front| ==> rows[i] == front[i];
    assert rows[|front|] == last;
  }

  lemma {:induction false} PutSizeIff(rows: seq<Row>)
    ensures |Put(map[], rows)| <= |rows|
    ensures |Put(map[], rows)| == |rows| <==> DistinctRowIds(rows)
  {
    if rows != [] {
      var front, last := rows[..|rows| - 1], rows[|rows| - 1];
      PutSizeIff(front);
      PutSize(Put(map[], front), last);
      var i := PutAt(front, last.id);
      DistinctLast(front, last);
      assert rows == front + [last];
    }
  }

  /** The table has a row for every row taken in exactly when no id repeats. */
  lemma RunKeepsAllIff(scrapes: seq<seq<Family>>)
    ensures |Scrapes(scrapes).table| <= |AllRows(scrapes)|
    ensures |Scrapes(scrapes).table| == |AllRows(scrapes)| <==> DistinctRowIds(AllRows(scrapes))
  {
    ScrapesPut(scrapes);
    PutSizeIff(AllRows(scrapes));
  }

  // ---- From the samples to the counters ----

  /** A label has the value of its last pair `k`, and the empty one without any. */
  lemma {:induction false} LabelValueIs(labels: seq<(string, string)>, name: string) returns (k: int)
    ensures -1 <= k < |labels| && forall j :: k < j < |labels| ==> labels[j].0 != name
    ensures if k >= 0 then labels[k].0 == name && LabelValue(labels, name) == labels[k].1
            else LabelValue(labels, name) == ""
  {
    if labels == [] {
      k := -1;
    } else if labels[|labels| - 1].0 == name {
      k := |labels| - 1;
    } else {
      k := LabelValueIs(labels[..|labels| - 1], name);
    }
  }

  /** A sample makes a row exactly when its topic is a full name and its metric one of the five; the row
      bears the parts of the name and the broker, and stands under all of them and the metric. */
  lemma RowOfIff(topic: string, broker: string, metric: string, counter: U64)
    ensures RowOf(topic, broker, metric, counter).Some? <==> ExtractPartsFromTopicFn(topic).Some? && IsTenantMetric(metric)
    ensures RowOf(topic, broker, metric, counter).Some? ==>
              var r := RowOf(topic, broker, metric, counter).value;
              && ExtractPartsFromTopicFn(topic) == Some((r.tenant, r.namespace, r.topic)) && r.broker == broker
              && r.id == r.tenant + r.namespace + r.topic + broker + metric
  {
  }

  // ---- Which tenants are noted ----

  /** The sample's topic is a full name under the tenant. */
  ghost predicate Names(s: Sample, tenant: string) {
    var parts := ExtractPartsFromTopicFn(LabelValue(s.labels, "topic"));
    parts.Some? && parts.value.0 == tenant
  }

  ghost predicate FamilyNames(f: Family, tenant: string) {
    IsTenantMetric(f.0) && exists s :: s in f.1 && Names(s, tenant)
  }

  lemma {:induction false} FamilyTenantsIff(f: Family, tenant: string)
    requires IsTenantMetric(f.0)
    ensures tenant in FamilyTenants(f) <==> FamilyNames(f, tenant)
    decreases |f.1|
  {
    if f.1 != [] {
      var front, last := f.1[..|f.1| - 1], f.1[|f.1| - 1];
      FamilyTenantsIff((f.0, front), tenant);
      assert f.1 == front + [last];
      assert Names(last, tenant) <==> SampleRow(f.0, last).Some? && SampleRow(f.0, last).value.tenant == tenant;
    }
  }

  /** The tenants noted are those of the full topic names sampled under one of the five metrics. */
  lemma {:induction false} NotedIff(scrapes: seq<seq<Family>>, tenant: string)
    ensures tenant in Scrapes(scrapes).tenants <==>
            exists families, f :: families in scrapes && f in families && FamilyNames(f, tenant)
  {
    if scrapes != [] {
      var front, last := scrapes[..|scrapes| - 1], scrapes[|scrapes| - 1];
      NotedIff(front, tenant);
      assert scrapes == front + [last];
      ScrapeGet(Scrapes(front), last, "");
      ScrapeTenantsFrom(last, tenant);
      forall f | f in last && IsTenantMetric(f.0)
        ensures tenant in FamilyTenants(f) <==> FamilyNames(f, tenant)
      {
        FamilyTenantsIff(f, tenant);
      }
    }
  }

  /** What a good sample of a tenant metric says, taken from its labels. */
  datatype Reading = Reading(metric: string, tenant: string, namespace: string, topic: string, pod: string, value: U64)

  function ReadingOf(metric: string, s: Sample): Option<Reading> {
    match ExtractPartsFromTopicFn(LabelValue(s.labels, "topic"))
    case None => None
    case Some((tenant, namespace, topic)) =>
      if tenant == "" || namespace == "" || topic == "" then None
      else Some(Reading(metric, tenant, namespace, topic, LabelValue(s.labels, "kubernetes_pod_name"), s.counter))
  }

  function FamilyReadings(metric: string, samples: seq<Sample>): seq<Reading> {
    if samples == [] then []
    else
      var reading := ReadingOf(metric, samples[|samples| - 1]);
      FamilyReadings(metric, samples[..|samples| - 1]) + if reading.Some? then [reading.value] else []
  }

  predicate IsTenantMetric(metric: string) {
    || metric == "pulsar_in_bytes_total" || metric == "pulsar_in_messages_total"
    || metric == "pulsar_out_bytes_total" || metric == "pulsar_out_messages_total" || metric == "pulsar_msg_backlog"
  }

  function ScrapeReadings(families: seq<Family>): seq<Reading> {
    if families == [] then []
    else
      var (metric, samples) := families[|families| - 1];
      ScrapeReadings(families[..|families| - 1]) + if IsTenantMetric(metric) then FamilyReadings(metric, samples) else []
  }

  /** What the samples of all scrapes so far say, oldest first. */
  function RunReadings(scrapes: seq<seq<Family>>): seq<Reading> {
    if scrapes == [] then [] else RunReadings(scrapes[..|scrapes| - 1]) + ScrapeReadings(scrapes[|scrapes| - 1])
  }

  /** One metric of one topic on one pod. */
  predicate SameSource(a: Reading, b: Reading) {
    a.metric == b.metric && a.tenant == b.tenant && a.namespace == b.namespace && a.topic == b.topic && a.pod == b.pod
  }

  /** The latest reading of every source. */
  ghost function LatestReadings(rs: seq<Reading>): seq<Reading> {
    if rs == [] then []
    else (if exists r :: r in rs[1..] && SameSource(r, rs[0]) then [] else [rs[0]]) + LatestReadings(rs[1..])
  }

  function RunTogether(r: Reading): string {
    r.tenant + r.namespace + r.topic + r.pod + r.metric
  }

  /** No two sources whose names, run together, are alike. */
  ghost predicate NamesApart(rs: seq<Reading>) {
    forall a, b :: a in rs && b in rs ==> RunTogether(a) == RunTogether(b) ==> SameSource(a, b)
  }

  /** The sum of one metric's values over a tenant's or a namespace's readings, or over all. */
  function ValuesOf(rs: seq<Reading>, metric: string, tenant: Option<string>, namespace: Option<string>): nat {
    if rs == [] then 0
    else
      var r := rs[|rs| - 1];
      ValuesOf(rs[..|rs| - 1], metric, tenant, namespace) +
      if r.metric == metric && Within(r, tenant, namespace) then r.value else 0
  }

  predicate Within(r: Reading, tenant: Option<string>, namespace: Option<string>) {
    (tenant.Some? ==> r.tenant == tenant.value) && (namespace.Some? ==> r.namespace == namespace.value)
  }

  /** Each counter is the 64-bit sum of the values of its own metric, and of no other. */
  ghost predicate Metered(c: Counters, rs: seq<Reading>, tenant: Option<string>, namespace: Option<string>) {
    && c.bytesIn == ValuesOf(rs, "pulsar_in_bytes_total", tenant, namespace) % 0x1_0000_0000_0000_0000
    && c.messagesIn == ValuesOf(rs, "pulsar_in_messages_total", tenant, namespace) % 0x1_0000_0000_0000_0000
    && c.bytesOut == ValuesOf(rs, "pulsar_out_bytes_total", tenant, namespace) % 0x1_0000_0000_0000_0000
    && c.messagesOut == ValuesOf(rs, "pulsar_out_messages_total", tenant, namespace) % 0x1_0000_0000_0000_0000
    && c.backlog == ValuesOf(rs, "pulsar_msg_backlog", tenant, namespace) % 0x1_0000_0000_0000_0000
  }

  function RowFor(r: Reading): Row {
    Row(r.tenant + r.namespace + r.topic + r.pod + r.metric, r.tenant, r.namespace, r.topic, r.pod,
        match Tally(r.metric, r.value) case Some(c) => c case None => ZERO)
  }

  function RowsFor(rs: seq<Reading>): (rows: seq<Row>)
    ensures |rows| == |rs|
  {
    seq(|rs|, i requires 0 <= i < |rs| => RowFor(rs[i]))
  }

  ghost predicate Known(rs: seq<Reading>) {
    forall r :: r in rs ==> IsTenantMetric(r.metric)
  }

  lemma RowsForAppend(a: seq<Reading>, b: seq<Reading>)
    ensures RowsFor(a + b) == RowsFor(a) + RowsFor(b)
  {
  }

  lemma SampleRowFor(metric: string, s: Sample)
    requires IsTenantMetric(metric)
    ensures var row, reading := SampleRow(metric, s), ReadingOf(metric, s);
            && (row.Some? && Indexed(row.value) <==> reading.Some?)
            && (reading.Some? ==> row == Some(RowFor(reading.value)) && reading.value.metric == metric)
  {
  }

  lemma {:induction false} FamilyRowsFor(metric: string, samples: seq<Sample>)
    requires IsTenantMetric(metric)
    ensures FamilyRows(metric, samples) == RowsFor(FamilyReadings(metric, samples))
    ensures Known(FamilyReadings(metric, samples))
  {
    if samples != [] {
      var front, last := samples[..|samples| - 1], samples[|samples| - 1];
      FamilyRowsFor(metric, front);
      SampleRowFor(metric, last);
      var reading := ReadingOf(metric, last);
      if reading.Some? {
        RowsForAppend(FamilyReadings(metric, front), [reading.value]);
      } else {
        assert FamilyReadings(metric, samples) == FamilyReadings(metric, front);
        assert FamilyRows(metric, samples) == FamilyRows(metric, front);
      }
    }
  }

  lemma {:induction false} ScrapedRowsFor(families: seq<Family>)
    ensures ScrapedRows(families) == RowsFor(ScrapeReadings(families)) && Known(ScrapeReadings(families))
  {
    if families != [] {
      var front, last := families[..|families| - 1], families[|families| - 1];
      ScrapedRowsFor(front);
      if IsTenantMetric(last.0) {
        FamilyRowsFor(last.0, last.1);
        RowsForAppend(ScrapeReadings(front), FamilyReadings(last.0, last.1));
      } else {
        assert ScrapeReadings(families) == ScrapeReadings(front) && ScrapedRows(families) == ScrapedRows(front);
      }
    }
  }

  lemma {:induction false} AllRowsFor(scrapes: seq<seq<Family>>)
    ensures AllRows(scrapes) == RowsFor(RunReadings(scrapes)) && Known(RunReadings(scrapes))
  {
    if scrapes != [] {
      var front, last := scrapes[..|scrapes| - 1], scrapes[|scrapes| - 1];
      AllRowsFor(front);
      ScrapedRowsFor(last);
      RowsForAppend(RunReadings(front), ScrapeReadings(last));
    }
  }

  lemma SameSourceIff(a: Reading, b: Reading)
    ensures SameSeries(RowFor(a), RowFor(b)) <==> SameSource(a, b)
  {
    var stem := a.tenant + a.namespace + a.topic + a.pod;
    if SameSeries(RowFor(a), RowFor(b)) {
      assert RowFor(a).id == stem + a.metric && RowFor(b).id == stem + b.metric;
      assert a.metric == RowFor(a).id[|stem|..] && b.metric == RowFor(b).id[|stem|..];
    }
  }

  lemma LatestRowsNext(rows: seq<Row>)
    requires rows != []
    ensures var renewed := exists r :: r in rows[1..] && SameSeries(r, rows[0]);
            && (renewed ==> LatestRows(rows) == LatestRows(rows[1..]))
            && (!renewed ==> LatestRows(rows) == [rows[0]] + LatestRows(rows[1..]))
  {
  }

  lemma LatestReadingsNext(rs: seq<Reading>)
    requires rs != []
    ensures var renewed := exists r :: r in rs[1..] && SameSource(r, rs[0]);
            && (renewed ==> LatestReadings(rs) == LatestReadings(rs[1..]))
            && (!renewed ==> LatestReadings(rs) == [rs[0]] + LatestReadings(rs[1..]))
  {
  }

  lemma {:induction false} LatestRowsFor(rs: seq<Reading>)
    ensures LatestRows(RowsFor(rs)) == RowsFor(LatestReadings(rs))
  {
    if rs != [] {
      var rest := rs[1..];
      LatestRowsFor(rest);
      RowsForFirst(rs);
      RenewedFor(rest, rs[0]);
      LatestRowsNext(RowsFor(rs));
      LatestReadingsNext(rs);
      RowsForFirst([rs[0]] + LatestReadings(rest));
    }
  }

  lemma RowsForFirst(rs: seq<Reading>)
    requires rs != []
    ensures RowsFor(rs)[1..] == RowsFor(rs[1..]) && RowsFor(rs) == [RowFor(rs[0])] + RowsFor(rs[1..])
  {
  }

  lemma RenewedFor(rest: seq<Reading>, first: Reading)
    ensures (exists r :: r in rest && SameSource(r, first)) <==>
            (exists row :: row in RowsFor(rest) && SameSeries(row, RowFor(first)))
  {
    if r :| r in rest && SameSource(r, first) {
      var i :| 0 <= i < |rest| && rest[i] == r;
      SameSourceIff(r, first);
      assert RowsFor(rest)[i] == RowFor(r);
    }
    if row :| row in RowsFor(rest) && SameSeries(row, RowFor(first)) {
      var i :| 0 <= i < |rest| && RowsFor(rest)[i] == row;
      SameSourceIff(rest[i], first);
      assert rest[i] in rest;
    }
  }

  lemma NamesApartRows(rs: seq<Reading>)
    requires NamesApart(rs)
    ensures NoCollision(RowsFor(rs))
  {
    forall i, j | 0 <= i < |rs| && 0 <= j < |rs| && RowFor(rs[i]).id == RowFor(rs[j]).id
      ensures SameSeries(RowFor(rs[i]), RowFor(rs[j]))
    {
      SameSourceIff(rs[i], rs[j]);
    }
  }

  lemma {:induction false} LatestKnown(rs: seq<Reading>)
    requires Known(rs)
    ensures Known(LatestReadings(rs))
  {
    if rs != [] {
      LatestKnown(rs[1..]);
    }
  }

  function RowsWithin(rs: seq<Reading>, tenant: Option<string>, namespace: Option<string>): seq<Row> {
    if rs == [] then []
    else
      var r := rs[|rs| - 1];
      RowsWithin(rs[..|rs| - 1], tenant, namespace) + if Within(r, tenant, namespace) then [RowFor(r)] else []
  }

  lemma ValuesLast(rs: seq<Reading>, r: Reading, metric: string, tenant: Option<string>, namespace: Option<string>)
    ensures ValuesOf(rs + [r], metric, tenant, namespace) ==
            ValuesOf(rs, metric, tenant, namespace) +
            if r.metric == metric && Within(r, tenant, namespace) then r.value else 0
  {
    assert (rs + [r])[..|rs|] == rs;
  }

  lemma AddToSum(c: U64, sum: nat, v: U64)
    requires c == sum % 0x1_0000_0000_0000_0000
    ensures Add(c, v) == (sum + v) % 0x1_0000_0000_0000_0000
  {
  }

  /** A reading's row counts its value under its own metric. */
  lemma RowCounters(r: Reading)
    requires IsTenantMetric(r.metric)
    ensures var c := RowFor(r).counters;
            && c.bytesIn == (if r.metric == "pulsar_in_bytes_total" then r.value else 0)
            && c.messagesIn == (if r.metric == "pulsar_in_messages_total" then r.value else 0)
            && c.bytesOut == (if r.metric == "pulsar_out_bytes_total" then r.value else 0)
            && c.messagesOut == (if r.metric == "pulsar_out_messages_total" then r.value else 0)
            && c.backlog == (if r.metric == "pulsar_msg_backlog" then r.value else 0)
  {
  }

  lemma MeteredOutside(c: Counters, rs: seq<Reading>, r: Reading, tenant: Option<string>, namespace: Option<string>)
    requires Metered(c, rs, tenant, namespace) && !Within(r, tenant, namespace)
    ensures Metered(c, rs + [r], tenant, namespace)
  {
    ValuesLast(rs, r, "pulsar_in_bytes_total", tenant, namespace);
    ValuesLast(rs, r, "pulsar_in_messages_total", tenant, namespace);
    ValuesLast(rs, r, "pulsar_out_bytes_total", tenant, namespace);
    ValuesLast(rs, r, "pulsar_out_messages_total", tenant, namespace);
    ValuesLast(rs, r, "pulsar_msg_backlog", tenant, namespace);
  }

  lemma MeteredInside(c: Counters, rs: seq<Reading>, r: Reading, tenant: Option<string>, namespace: Option<string>)
    requires Metered(c, rs, tenant, namespace) && IsTenantMetric(r.metric) && Within(r, tenant, namespace)
    ensures Metered(Plus(c, RowFor(r).counters), rs + [r], tenant, namespace)
  {
    var d := RowFor(r).counters;
    RowCounters(r);
    CounterNext(c.bytesIn, d.bytesIn, rs, r, "pulsar_in_bytes_total", tenant, namespace);
    CounterNext(c.messagesIn, d.messagesIn, rs, r, "pulsar_in_messages_total", tenant, namespace);
    CounterNext(c.bytesOut, d.bytesOut, rs, r, "pulsar_out_bytes_total", tenant, namespace);
    CounterNext(c.messagesOut, d.messagesOut, rs, r, "pulsar_out_messages_total", tenant, namespace);
    CounterNext(c.backlog, d.backlog, rs, r, "pulsar_msg_backlog", tenant, namespace);
  }

  lemma CounterNext(c: U64, d: U64, rs: seq<Reading>, r: Reading, metric: string,
                    tenant: Option<string>, namespace: Option<string>)
    requires c == ValuesOf(rs, metric, tenant, namespace) % 0x1_0000_0000_0000_0000
    requires Within(r, tenant, namespace) && d == if r.metric == metric then r.value else 0
    ensures Add(c, d) == ValuesOf(rs + [r], metric, tenant, namespace) % 0x1_0000_0000_0000_0000
  {
    AddToSum(c, ValuesOf(rs, metric, tenant, namespace), d);
    ValuesLast(rs, r, metric, tenant, namespace);
  }

  lemma {:induction false} TotalMetered(rs: seq<Reading>, tenant: Option<string>, namespace: Option<string>)
    requires Known(rs)
    ensures Metered(Total(RowsWithin(rs, tenant, namespace)), rs, tenant, namespace)
  {
    if rs != [] {
      var front, r := rs[..|rs| - 1], rs[|rs| - 1];
      TotalMetered(front, tenant, namespace);
      var sum := Total(RowsWithin(front, tenant, namespace));
      assert rs == front + [r];
      if Within(r, tenant, namespace) {
        MeteredInside(sum, front, r, tenant, namespace);
        TotalLast(RowsWithin(front, tenant, namespace), RowFor(r));
      } else {
        MeteredOutside(sum, front, r, tenant, namespace);
        assert RowsWithin(rs, tenant, namespace) == RowsWithin(front, tenant, namespace);
      }
    }
  }

  lemma RowsForFront(rs: seq<Reading>)
    requires rs != []
    ensures RowsFor(rs) == RowsFor(rs[..|rs| - 1]) + [RowFor(rs[|rs| - 1])]
  {
  }

  lemma {:induction false} AllWithin(rs: seq<Reading>)
    ensures RowsWithin(rs, None, None) == RowsFor(rs)
  {
    if rs != [] {
      AllWithin(rs[..|rs| - 1]);
      RowsForFront(rs);
    }
  }

  lemma {:induction false} TenantWithin(rs: seq<Reading>, tenant: string)
    ensures Groups.Select(RowsFor(rs), TenantOf, tenant) == RowsWithin(rs, Some(tenant), None)
  {
    if rs != [] {
      var front := rs[..|rs| - 1];
      TenantWithin(front, tenant);
      RowsForFront(rs);
      Groups.SelectLast(RowsFor(front), RowFor(rs[|rs| - 1]), TenantOf, tenant);
    }
  }

  lemma RowsWithinTake(rs: seq<Reading>, tenant: Option<string>, namespace: Option<string>)
    requires rs != [] && Within(rs[|rs| - 1], tenant, namespace)
    ensures RowsWithin(rs, tenant, namespace) == RowsWithin(rs[..|rs| - 1], tenant, namespace) + [RowFor(rs[|rs| - 1])]
  {
  }

  lemma RowsWithinSkip(rs: seq<Reading>, tenant: Option<string>, namespace: Option<string>)
    requires rs != [] && !Within(rs[|rs| - 1], tenant, namespace)
    ensures RowsWithin(rs, tenant, namespace) == RowsWithin(rs[..|rs| - 1], tenant, namespace)
  {
  }

  lemma SelectNext(rows: seq<Row>, row: Row, namespace: string, group: seq<Row>)
    requires Groups.Select(rows, NamespaceOf, namespace) == group
    ensures row.namespace == namespace ==> Groups.Select(rows + [row], NamespaceOf, namespace) == group + [row]
    ensures row.namespace != namespace ==> Groups.Select(rows + [row], NamespaceOf, namespace) == group
  {
    Groups.SelectLast(rows, row, NamespaceOf, namespace);
  }

  lemma {:induction false} NamespaceWithin(rs: seq<Reading>, tenant: string, namespace: string)
    ensures Groups.Select(RowsWithin(rs, Some(tenant), None), NamespaceOf, namespace) ==
            RowsWithin(rs, Some(tenant), Some(namespace))
  {
    if rs != [] {
      var front, r := rs[..|rs| - 1], rs[|rs| - 1];
      NamespaceWithin(front, tenant, namespace);
      if r.tenant != tenant {
        RowsWithinSkip(rs, Some(tenant), None);
        RowsWithinSkip(rs, Some(tenant), Some(namespace));
      } else {
        var outer, inner := RowsWithin(front, Some(tenant), None), RowsWithin(front, Some(tenant), Some(namespace));
        RowsWithinTake(rs, Some(tenant), None);
        SelectNext(outer, RowFor(r), namespace, inner);
        if r.namespace == namespace {
          RowsWithinTake(rs, Some(tenant), Some(namespace));
        } else {
          RowsWithinSkip(rs, Some(tenant), Some(namespace));
        }
      }
    }
  }

  /** After any run of scrapes whose names are apart, the rows of the latest readings are a listing of the
      table. */
  lemma TableFor(scrapes: seq<seq<Family>>)
    requires NamesApart(RunReadings(scrapes))
    ensures var latest := LatestReadings(RunReadings(scrapes));
            FullIndex(Scrapes(scrapes).table, RowsFor(latest)) && Known(latest)
  {
    AllRowsFor(scrapes);
    NamesApartRows(RunReadings(scrapes));
    LatestRowsIndex(scrapes);
    LatestRowsFor(RunReadings(scrapes));
    LatestKnown(RunReadings(scrapes));
  }

  /** A tenant's counters are the 64-bit sums of its latest readings, metric by metric. */
  lemma TenantMetered(scrapes: seq<seq<Family>>, tenant: string, index: seq<Row>)
    requires NamesApart(RunReadings(scrapes)) && TenantIndex(Scrapes(scrapes).table, tenant, index)
    ensures Metered(Total(index), LatestReadings(RunReadings(scrapes)), Some(tenant), None)
  {
    var latest := LatestReadings(RunReadings(scrapes));
    TableFor(scrapes);
    TenantTotal(Scrapes(scrapes).table, tenant, index, RowsFor(latest));
    TenantWithin(latest, tenant);
    TotalMetered(latest, Some(tenant), None);
  }

  /** So are those of each of its namespaces. */
  lemma NamespaceMetered(scrapes: seq<seq<Family>>, tenant: string, index: seq<Row>, usages: map<string, Usage>, namespace: string)
    requires NamesApart(RunReadings(scrapes)) && TenantIndex(Scrapes(scrapes).table, tenant, index)
    requires NamespaceUsages(index, tenant, usages) && tenant + "/" + namespace in usages
    ensures var usage := usages[tenant + "/" + namespace];
            && usage.name == tenant + "/" + namespace
            && Metered(usage.counters, LatestReadings(RunReadings(scrapes)), Some(tenant), Some(namespace))
  {
    var latest := LatestReadings(RunReadings(scrapes));
    TableFor(scrapes);
    var rows := Groups.Select(RowsFor(latest), TenantOf, tenant);
    SelectDistinct(RowsFor(latest), TenantOf, tenant);
    SelectDistinct(rows, NamespaceOf, namespace);
    SelectDistinct(index, NamespaceOf, namespace);
    forall r
      ensures r in Groups.Select(index, NamespaceOf, namespace) <==> r in Groups.Select(rows, NamespaceOf, namespace)
    {
      Groups.SelectIn(index, NamespaceOf, namespace, r);
      Groups.SelectIn(rows, NamespaceOf, namespace, r);
      Groups.SelectIn(RowsFor(latest), TenantOf, tenant, r);
    }
    SameMembersPermute(Groups.Select(index, NamespaceOf, namespace), Groups.Select(rows, NamespaceOf, namespace));
    TotalPermutes(Groups.Select(index, NamespaceOf, namespace), Groups.Select(rows, NamespaceOf, namespace));
    assert UsageAt(index, tenant, usages, namespace);
    TenantWithin(latest, tenant);
    NamespaceWithin(latest, tenant, namespace);
    TotalMetered(latest, Some(tenant), Some(namespace));
  }

  /** And so are the usages of all noted tenants together. */
  lemma UsagesMetered(scrapes: seq<seq<Family>>, usages: seq<Usage>, indexes: seq<seq<Row>>, tenants: seq<string>)
    requires NamesApart(RunReadings(scrapes))
    requires var st := Scrapes(scrapes);
             && Distinct(tenants) && (forall t :: t in tenants <==> t in st.tenants)
             && |usages| == |indexes| == |tenants|
             && forall i :: 0 <= i < |usages| ==>
                  TenantIndex(st.table, tenants[i], indexes[i]) && usages[i] == Usage(tenants[i], Total(indexes[i]))
    ensures Metered(SumUsages(usages), LatestReadings(RunReadings(scrapes)), None, None)
  {
    var latest := LatestReadings(RunReadings(scrapes));
    TableFor(scrapes);
    TenantsAddUp(scrapes, usages, indexes, RowsFor(latest), tenants);
    AllWithin(latest);
    TotalMetered(latest, None, None);
  }

  function TopicSample(p: Parts, counter: U64): Sample {
    Sample([("topic", PERSISTENT + Path(p))], counter)
  }

  lemma TopicSampleRow(p: Parts, counter: U64)
    requires SlashFree(p) && p.1 != ""
    ensures SampleRow(IN_BYTES, TopicSample(p, counter)) ==
            Some(Row(p.0 + p.1 + p.2 + IN_BYTES, p.0, p.1, p.2, "", ZERO.(bytesIn := counter)))
  {
    ExtractPrinted(PERSISTENT, p);
    var labels := TopicSample(p, counter).labels;
    assert labels[..0] == [];
    assert LabelValue(labels, "topic") == PERSISTENT + Path(p) && LabelValue(labels, "kubernetes_pod_name") == "";
    assert p.0 + p.1 + p.2 + "" + IN_BYTES == p.0 + p.1 + p.2 + IN_BYTES;
  }

  lemma AddSamplesLast(st: State, metric: string, samples: seq<Sample>, last: Sample)
    ensures AddSamples(st, metric, samples + [last]) == Upsert(AddSamples(st, metric, samples), SampleRow(metric, last))
  {
  }

  lemma ScrapeFamily(metric: string, samples: seq<Sample>)
    requires metric in TENANT_METRIC_NAMES
    ensures Scrape(EMPTY, [(metric, samples)]) == AddSamples(EMPTY, metric, samples)
  {
    assert [(metric, samples)][..0] == [];
  }

  /** Two topics whose names run together alike: only the later sample counts, and the tenant of the
      first, though noted, is left without a row. */
  lemma CollidingTopics(p: Parts, q: Parts, x: U64, y: U64)
    requires SlashFree(p) && p.0 != "" && p.1 != "" && p.2 != ""
    requires SlashFree(q) && q.0 != "" && q.1 != "" && q.2 != ""
    requires p.0 + p.1 + p.2 == q.0 + q.1 + q.2 && p.0 != q.0
    ensures var st := Scrape(EMPTY, [(IN_BYTES, [TopicSample(p, x), TopicSample(q, y)])]);
            var id := q.0 + q.1 + q.2 + IN_BYTES;
            && st == State(map[id := Row(id, q.0, q.1, q.2, "", ZERO.(bytesIn := y))], {p.0, q.0})
            && TenantIndex(st.table, p.0, [])
  {
    var first, second := TopicSample(p, x), TopicSample(q, y);
    TopicSampleRow(p, x);
    TopicSampleRow(q, y);
    AddSamplesLast(EMPTY, IN_BYTES, [], first);
    AddSamplesLast(EMPTY, IN_BYTES, [first], second);
    assert [] + [first] == [first] && [first] + [second] == [first, second];
    ScrapeFamily(IN_BYTES, [first, second]);
  }

  /** Such topics exist: whatever namespace "bc" of tenant "a" has taken in is not counted. */
  lemma CollisionLosesUsage(x: U64, y: U64)
    ensures var st := Scrape(EMPTY, [(IN_BYTES, [TopicSample(("a", "bc", "t"), x), TopicSample(("ab", "c", "t"), y)])]);
            "a" in st.tenants && TenantIndex(st.table, "a", []) && |st.table| == 1
  {
    var p, q := ("a", "bc", "t"), ("ab", "c", "t");
    assert p.0 + p.1 + p.2 == "abct" == q.0 + q.1 + q.2;
    CollidingTopics(p, q, x, y);
  }

  // ---- The program's table ----

  class Meter {
    var usageDb: Table
    var tenants: set<string>

    constructor ()
      ensures Contents() == EMPTY
    {
      usageDb := map[];
      tenants := {};
    }

    ghost function Contents(): State
      reads this
    {
      State(usageDb, tenants)
    }

    method UpdatePerBrokerTenantUsage(topic: string, broker: string, metric: string, counter: U64) returns (ok: bool)
      modifies this
      ensures ok <==> RowOf(topic, broker, metric, counter).Some?
      ensures Contents() == Upsert(old(Contents()), RowOf(topic, broker, metric, counter))
    {
      var parts := ExtractPartsFromTopicFn(topic);
      if parts.None? {
        return false;
      }
      var (tenantName, namespace, topicName) := parts.value;
      var row := Row(tenantName + namespace + topicName + broker + metric, tenantName, namespace, topicName, broker, ZERO);
      if metric == IN_BYTES {
        row := row.(counters := row.counters.(bytesIn := counter));
      } else if metric == IN_MESSAGES {
        row := row.(counters := row.counters.(messagesIn := counter));
      } else if metric == OUT_BYTES {
        row := row.(counters := row.counters.(bytesOut := counter));
      } else if metric == OUT_MESSAGES {
        row := row.(counters := row.counters.(messagesOut := counter));
      } else if metric == MSG_BACKLOG {
        row := row.(counters := row.counters.(backlog := counter));
      } else {
        return false;
      }
      if Indexed(row) {
        usageDb := usageDb[row.id := row];
      }
      tenants := tenants + {tenantName};
      return true;
    }

    method BuildTenantUsage(families: seq<Family>)
      modifies this
      ensures Contents() == Scrape(old(Contents()), families)
    {
      for i := 0 to |families|
        invariant Contents() == Scrape(old(Contents()), families[..i])
      {
        var (metric, samples) := families[i];
        assert families[..i + 1][..i] == families[..i];
        if metric in TENANT_METRIC_NAMES {
          ghost var before := Contents();
          for j := 0 to |samples|
            invariant Contents() == AddSamples(before, metric, samples[..j])
          {
            var entry := samples[j];
            var broker, topic := ReadLabels(entry.labels);
            assert samples[..j + 1][..j] == samples[..j];
            var _ := UpdatePerBrokerTenantUsage(topic, broker, metric, entry.counter);
          }
          assert samples[..|samples|] == samples;
        }
      }
      assert families[..|families|] == families;
    }

    method GetTenantUsage(tenant: string, index: seq<Row>) returns (usage: Usage)
      requires TenantIndex(usageDb, tenant, index)
      ensures usage == Usage(tenant, Total(index))
    {
      var sum := ZERO;
      for i := 0 to |index|
        invariant sum == Total(index[..i])
      {
        TotalLast(index[..i], index[i]);
        assert index[..i + 1] == index[..i] + [index[i]];
        sum := Plus(sum, index[i].counters);
      }
      assert index[..|index|] == index;
      return Usage(tenant, sum);
    }

    method GetTenantNamespacesUsage(tenant: string, index: seq<Row>) returns (usages: map<string, Usage>)
      requires TenantIndex(usageDb, tenant, index)
      ensures NamespaceUsages(index, tenant, usages)
    {
      usages := map[];
      for i := 0 to |index|
        invariant NamespaceUsages(index[..i], tenant, usages)
      {
        var p := index[i];
        var key := Key(tenant, p.namespace);
        ghost var before := usages;
        var usage := if key in usages then usages[key] else Usage(key, ZERO);
        assert UsageAt(index[..i], tenant, usages, p.namespace);
        usage := usage.(counters := Plus(usage.counters, p.counters));
        usages := usages[key := usage];
        NamespaceUsagesNext(index[..i], p, tenant, before, usages);
        assert index[..i + 1] == index[..i] + [p];
      }
      assert index[..|index|] == index;
    }

    /** The tenants in the order they are visited, each with its reading of the index. */
    method GetTenantsUsage(names: seq<string>, indexes: seq<seq<Row>>) returns (usages: seq<Usage>)
      requires |names| == |indexes|
      requires forall i :: 0 <= i < |names| ==> TenantIndex(usageDb, names[i], indexes[i])
      ensures |usages| == |names|
      ensures forall i :: 0 <= i < |names| ==> usages[i] == Usage(names[i], Total(indexes[i]))
    {
      usages := [];
      for i := 0 to |names|
        invariant |usages| == i
        invariant forall k :: 0 <= k < i ==> usages[k] == Usage(names[k], Total(indexes[k]))
      {
        var usage := GetTenantUsage(names[i], indexes[i]);
        usages := usages + [usage];
      }
    }
  }

  method ReadLabels(labels: seq<(string, string)>) returns (broker: string, topic: string)
    ensures broker == LabelValue(labels, "kubernetes_pod_name") && topic == LabelValue(labels, "topic")
  {
    broker, topic := "", "";
    for i := 0 to |labels|
      invariant broker == LabelValue(labels[..i], "kubernetes_pod_name") && topic == LabelValue(labels[..i], "topic")
    {
      assert labels[..i + 1][..i] == labels[..i];
      var (name, value) := labels[i];
      if name == "kubernetes_pod_name" {
        broker := value;
      } else if name == "topic" {
        topic := value;
      }
    }
    assert labels[..|labels|] == labels;
  }
}

/** function_code/utils.py: `get_archive_dest` as a search of a nested
    tenant -> log type -> destination mapping. */
module FunctionUtils {
  import opened Common
  import opened Strings
  import opened Rules
  import FunctionApp

  datatype LogType = LogType(name: string, dest: Destination)
  datatype Tenant = Tenant(name: string, logTypes: seq<LogType>)

  /** The mapping, tenants and log types in declaration (dict insertion) order. */
  const Mappings: seq<Tenant> := [
    Tenant("kpmgukdsp", [
      LogType("audit_log", Destination("sap-dsp", "audit")),
      LogType("event_log", Destination("sap-dsp", "event")),
      LogType("app_log", Destination("sap-dsp", "spaces-db"))]),
    Tenant("kpmgukcis", [
      LogType("audit_log", Destination("sap-cis", "audit")),
      LogType("event_log", Destination("sap-cis", "event"))]),
    Tenant("kpmgukiag", [
      LogType("audit_log", Destination("sap-iag", "audit")),
      LogType("event_log", Destination("sap-iag", "event"))]),
    Tenant("kpmgukmrm", [
      LogType("audit_log", Destination("sap-mrm", "audit")),
      LogType("event_log", Destination("sap-mrm", "event"))]),
    Tenant("kpmguks4", [
      LogType("audit_log", Destination("sap-btp-abap", "audit")),
      LogType("event_log", Destination("sap-btp-abap", "event"))])
  ]

  /** The prefix tested for a log type of a tenant: `{log_type}_{tenant}`. */
  function PrefixOf(tenant: string, logType: string): string {
    logType + "_" + tenant
  }

  /** The inner loop: log types of one tenant, from index `i` on. */
  function SearchLogTypes(tenant: string, logTypes: seq<LogType>, fname: string, i: nat): (r: Option<Destination>)
    decreases |logTypes| - i
    ensures r.None? <==> forall k :: i <= k < |logTypes| ==> !StartsWith(fname, PrefixOf(tenant, logTypes[k].name))
    ensures r.Some? ==> exists k :: i <= k < |logTypes| && StartsWith(fname, PrefixOf(tenant, logTypes[k].name)) && logTypes[k].dest == r.value
  {
    if i >= |logTypes| then None
    else if StartsWith(fname, PrefixOf(tenant, logTypes[i].name)) then Some(logTypes[i].dest)
    else SearchLogTypes(tenant, logTypes, fname, i + 1)
  }

  /** The outer loop: tenants from index `i` on; the first hit returns. */
  function SearchTenants(tenants: seq<Tenant>, fname: string, i: nat): (r: Option<Destination>)
    decreases |tenants| - i
    ensures r.None? <==> forall t :: i <= t < |tenants| ==> SearchLogTypes(tenants[t].name, tenants[t].logTypes, fname, 0).None?
    ensures r.Some? ==> exists t :: i <= t < |tenants| && SearchLogTypes(tenants[t].name, tenants[t].logTypes, fname, 0) == r
  {
    if i >= |tenants| then None
    else match SearchLogTypes(tenants[i].name, tenants[i].logTypes, fname, 0)
      case Some(d) => Some(d)
      case None => SearchTenants(tenants, fname, i + 1)
  }

  /** `get_archive_dest` of function_code/utils.py. */
  function GetArchiveDest(filename: string): (d: Destination)
    ensures d.container in {"sap-dsp", "sap-cis", "sap-iag", "sap-mrm", "sap-btp-abap", "other"}
    ensures d.subfolder in {"audit", "event", "spaces-db", "misc"}
  {
    match SearchTenants(Mappings, Lower(filename), 0)
    case Some(d) =>
      MappingDestinationsListed();
      d
    case None => Destination("other", "misc")
  }

  /** Every destination the mapping names is among the listed ones. */
  lemma MappingDestinationsListed()
    ensures forall t, k :: 0 <= t < |Mappings| && 0 <= k < |Mappings[t].logTypes| ==>
      && Mappings[t].logTypes[k].dest.container in {"sap-dsp", "sap-cis", "sap-iag", "sap-mrm", "sap-btp-abap"}
      && Mappings[t].logTypes[k].dest.subfolder in {"audit", "event", "spaces-db"}
  {
  }

  /** The rules one tenant contributes, log types in order. */
  function TenantRules(t: Tenant, i: nat): seq<Rule<Destination>>
    decreases |t.logTypes| - i
  {
    if i >= |t.logTypes| then []
    else [Rule(PrefixOf(t.name, t.logTypes[i].name), t.logTypes[i].dest)] + TenantRules(t, i + 1)
  }

  /** The mapping flattened into one ordered rule table: tenants in outer order,
      log types in inner order. */
  function Flatten(tenants: seq<Tenant>, i: nat): seq<Rule<Destination>>
    decreases |tenants| - i
  {
    if i >= |tenants| then []
    else TenantRules(tenants[i], 0) + Flatten(tenants, i + 1)
  }

  /** The target of the first matching rule, if any. */
  function Lookup(table: seq<Rule<Destination>>, fname: string): Option<Destination> {
    match FirstMatch(table, fname)
    case Some(k) => Some(table[k].target)
    case None => None
  }

  /** Looking up in a concatenation: the first table decides when it matches. */
  lemma LookupAppend(a: seq<Rule<Destination>>, b: seq<Rule<Destination>>, fname: string)
    ensures Lookup(a + b, fname) == match Lookup(a, fname) case Some(d) => Some(d) case None => Lookup(b, fname)
  {
    var ra, rb := FirstMatch(a, fname), FirstMatch(b, fname);
    if ra.Some? {
      var k := ra.value;
      forall j | 0 <= j < k ensures !StartsWith(fname, (a + b)[j].prefix) {
        assert (a + b)[j] == a[j];
      }
      assert (a + b)[k] == a[k];
      FirstMatchUnique(a + b, fname, k);
    } else if rb.Some? {
      var k := |a| + rb.value;
      forall j | 0 <= j < k ensures !StartsWith(fname, (a + b)[j].prefix) {
        if j < |a| { assert (a + b)[j] == a[j]; } else { assert (a + b)[j] == b[j - |a|]; }
      }
      assert (a + b)[k] == b[rb.value];
      FirstMatchUnique(a + b, fname, k);
    } else {
      forall j | 0 <= j < |a + b| ensures !StartsWith(fname, (a + b)[j].prefix) {
        if j < |a| { assert (a + b)[j] == a[j]; } else { assert (a + b)[j] == b[j - |a|]; }
      }
    }
  }

  /** The inner search is a first-match lookup over the tenant's rules. */
  lemma {:induction false} SearchLogTypesIsLookup(t: Tenant, fname: string, i: nat)
    decreases |t.logTypes| - i
    ensures SearchLogTypes(t.name, t.logTypes, fname, i) == Lookup(TenantRules(t, i), fname)
  {
    if i < |t.logTypes| {
      var head := [Rule(PrefixOf(t.name, t.logTypes[i].name), t.logTypes[i].dest)];
      SearchLogTypesIsLookup(t, fname, i + 1);
      LookupAppend(head, TenantRules(t, i + 1), fname);
    }
  }

  /** The nested search is a first-match lookup over the flattened table. */
  lemma {:induction false} SearchTenantsIsLookup(tenants: seq<Tenant>, fname: string, i: nat)
    decreases |tenants| - i
    ensures SearchTenants(tenants, fname, i) == Lookup(Flatten(tenants, i), fname)
  {
    if i < |tenants| {
      SearchLogTypesIsLookup(tenants[i], fname, 0);
      SearchTenantsIsLookup(tenants, fname, i + 1);
      LookupAppend(TenantRules(tenants[i], 0), Flatten(tenants, i + 1), fname);
    }
  }

  /** The first two tenants contribute the chain's first five rules. */
  lemma FirstTenantsFlatten()
    ensures Flatten(Mappings, 0) == FunctionApp.ChainRules[..5] + Flatten(Mappings, 2)
  {
    var t0 := Mappings[0];
    assert t0 == Tenant("kpmgukdsp", [LogType("audit_log", Destination("sap-dsp", "audit")), LogType("event_log", Destination("sap-dsp", "event")), LogType("app_log", Destination("sap-dsp", "spaces-db"))]);
    assert PrefixOf(t0.name, t0.logTypes[0].name) == "audit_log_kpmgukdsp";
    assert PrefixOf(t0.name, t0.logTypes[1].name) == "event_log_kpmgukdsp";
    assert PrefixOf(t0.name, t0.logTypes[2].name) == "app_log_kpmgukdsp";
    assert TenantRules(t0, 3) == [];
    var t1 := Mappings[1];
    assert t1 == Tenant("kpmgukcis", [LogType("audit_log", Destination("sap-cis", "audit")), LogType("event_log", Destination("sap-cis", "event"))]);
    assert PrefixOf(t1.name, t1.logTypes[0].name) == "audit_log_kpmgukcis";
    assert PrefixOf(t1.name, t1.logTypes[1].name) == "event_log_kpmgukcis";
    assert TenantRules(t1, 2) == [];
  }

  /** The last three tenants contribute the chain's last six rules. */
  lemma LastTenantsFlatten()
    ensures Flatten(Mappings, 2) == FunctionApp.ChainRules[5..]
  {
    var t2 := Mappings[2];
    assert t2 == Tenant("kpmgukiag", [LogType("audit_log", Destination("sap-iag", "audit")), LogType("event_log", Destination("sap-iag", "event"))]);
    assert PrefixOf(t2.name, t2.logTypes[0].name) == "audit_log_kpmgukiag";
    assert PrefixOf(t2.name, t2.logTypes[1].name) == "event_log_kpmgukiag";
    assert TenantRules(t2, 2) == [];
    var t3 := Mappings[3];
    assert t3 == Tenant("kpmgukmrm", [LogType("audit_log", Destination("sap-mrm", "audit")), LogType("event_log", Destination("sap-mrm", "event"))]);
    assert PrefixOf(t3.name, t3.logTypes[0].name) == "audit_log_kpmgukmrm";
    assert PrefixOf(t3.name, t3.logTypes[1].name) == "event_log_kpmgukmrm";
    assert TenantRules(t3, 2) == [];
    var t4 := Mappings[4];
    assert t4 == Tenant("kpmguks4", [LogType("audit_log", Destination("sap-btp-abap", "audit")), LogType("event_log", Destination("sap-btp-abap", "event"))]);
    assert PrefixOf(t4.name, t4.logTypes[0].name) == "audit_log_kpmguks4";
    assert PrefixOf(t4.name, t4.logTypes[1].name) == "event_log_kpmguks4";
    assert TenantRules(t4, 2) == [];
    assert Flatten(Mappings, 5) == [];
  }

  /** Flattening the mapping gives the chain's eleven rules in the chain's order. */
  lemma MappingsFlattenToChain()
    ensures Flatten(Mappings, 0) == FunctionApp.ChainRules
  {
    FirstTenantsFlatten();
    LastTenantsFlatten();
    var c := FunctionApp.ChainRules;
    assert c == c[..5] + c[5..];
  }

  /** Both hard-coded routers agree on every file name. */
  lemma AgreesWithChain(filename: string)
    ensures GetArchiveDest(filename) == FunctionApp.GetArchiveDest(filename)
  {
    var fname := Lower(filename);
    SearchTenantsIsLookup(Mappings, fname, 0);
    MappingsFlattenToChain();
    FunctionApp.GetArchiveDestIsFirstMatch(filename);
  }

  /** Only `kpmgukdsp` has an `app_log` entry: the same log type under another
      tenant falls back to `other/misc`. */
  lemma AppLogOfOtherTenantFallsBack()
    ensures GetArchiveDest("app_log_kpmgukcis_x") == Destination("other", "misc")
  {
    var name := "app_log_kpmgukcis_x";
    assert forall i :: 0 <= i < |name| ==> !IsUpper(name[i]);
    assert Lower(name) == name;
    forall j | 0 <= j < |FunctionApp.ChainRules| ensures !StartsWith(Lower(name), FunctionApp.ChainRules[j].prefix) {
      var p := FunctionApp.ChainRules[j].prefix;
      if j == 2 {
        assert name[14] != p[14];
      } else {
        assert name[0] != p[0] || name[1] != p[1];
      }
    }
    FunctionApp.GetArchiveDestTotal(name);
    AgreesWithChain(name);
  }
}

/** An ordered table of filename-prefix rules, matched first-match-wins. */
module Rules {
  import opened Common
  import opened Strings

  /** A rule routes every name that starts with `prefix` to `target`. */
  datatype Rule<+T> = Rule(prefix: string, target: T)

  /** The index of the first rule, in table order, whose prefix starts `name`. */
  function FirstMatch<T>(table: seq<Rule<T>>, name: string): (r: Option<nat>)
    ensures r.Some? ==> r.value < |table| && StartsWith(name, table[r.value].prefix)
    ensures r.Some? ==> forall j :: 0 <= j < r.value ==> !StartsWith(name, table[j].prefix)
    ensures r.None? ==> forall j :: 0 <= j < |table| ==> !StartsWith(name, table[j].prefix)
  {
    if table == [] then None
    else if StartsWith(name, table[0].prefix) then Some(0)
    else
      match FirstMatch(table[1..], name)
      case None => None
      case Some(k) => Some(k + 1)
  }

  /** The first-match index is determined by where the rules match. */
  lemma FirstMatchUnique<T>(table: seq<Rule<T>>, name: string, k: nat)
    requires k < |table| && StartsWith(name, table[k].prefix)
    requires forall j :: 0 <= j < k ==> !StartsWith(name, table[j].prefix)
    ensures FirstMatch(table, name) == Some(k)
  {
  }

  /** The target of the first matching rule, or `fallback` when none matches. */
  function Route<T>(table: seq<Rule<T>>, name: string, fallback: T): (r: T)
    ensures (forall j :: 0 <= j < |table| ==> !StartsWith(name, table[j].prefix)) ==> r == fallback
    ensures r != fallback ==> exists k :: 0 <= k < |table| && StartsWith(name, table[k].prefix) && table[k].target == r
  {
    match FirstMatch(table, name)
    case Some(k) => table[k].target
    case None => fallback
  }

  /** First match wins: a rule that matches, with no earlier rule matching,
      decides the route. */
  lemma RouteIsFirstMatchingRule<T>(table: seq<Rule<T>>, name: string, fallback: T, k: nat)
    requires k < |table| && StartsWith(name, table[k].prefix)
    requires forall j :: 0 <= j < k ==> !StartsWith(name, table[j].prefix)
    ensures Route(table, name, fallback) == table[k].target
  {
  }

  /** With no rule matching, the fallback decides the route. */
  lemma RouteFallsBack<T>(table: seq<Rule<T>>, name: string, fallback: T)
    requires FirstMatch(table, name).None?
    ensures Route(table, name, fallback) == fallback
  {
  }

  /** A prefix holding an upper-case letter never matches a lower-cased name. */
  lemma UpperCasePrefixNeverMatches(s: string, prefix: string, i: nat)
    requires i < |prefix| && IsUpper(prefix[i])
    ensures !StartsWith(Lower(s), prefix)
  {
  }

  /** Of two overlapping rules, the later one whose prefix extends the earlier
      one's never decides a route: the earlier rule wins on every name. */
  lemma ShadowedRuleNeverWins<T>(table: seq<Rule<T>>, name: string, i: nat, j: nat)
    requires i < j < |table| && StartsWith(table[j].prefix, table[i].prefix)
    ensures FirstMatch(table, name) != Some(j)
  {
    if StartsWith(name, table[j].prefix) {
      StartsWithTransitive(name, table[j].prefix, table[i].prefix);
    }
  }
}

/**
 * The four rule-list builders of the static rule generator. The DNT builders
 * return fixed lists; the gen_204 and redirect builders walk the host list,
 * pushing rules and advancing an id counter. Each looping builder is a method
 * proved equal to a recursive function that appends one host's rules at a
 * time, and the promised shape of the list is proved about that function.
 */
module StaticRules {
  import opened Wrappers
  import opened RuleSchema

  const DNT_POLICY_URL_FILTER := "|https://*/.well-known/dnt-policy.txt|"

  /** DNT: 1 and Sec-GPC: 1, set (overwritten if present), in that order. */
  const DNT_SIGNAL_HEADERS: seq<HeaderOp> :=
    [HeaderOp("DNT", "set", "1"), HeaderOp("Sec-GPC", "set", "1")]

  /** The query-parameter shapes the redirector uses, most specific first. */
  const REDIRECT_PARAMS: seq<string> := [".+&q", "q", ".+&url", "url"]

  /** Back-reference to the captured destination URL. */
  const CAPTURED_URL := "\\1"

  // ---------------------------------------------------------------------------
  // DNT policy and DNT/GPC signal rules

  /**
   * make_dnt_policy_rule: one allow rule, at the DNT-check priority, for XHR
   * requests to the well-known DNT policy document on any host.
   */
  function MakeDntPolicyRule(dntCheckAllow: Priority): (r: seq<Rule>)
    ensures |r| == 1 && SequentialIds(r) && WellFormedList(r)
    ensures r[0].priority == dntCheckAllow && r[0].action == Allow
    ensures forall rt :: AdmitsResourceType(r[0].condition, rt) <==> rt == "xmlhttprequest"
    ensures r[0].condition.urlFilter == Some(DNT_POLICY_URL_FILTER)
    ensures r[0].condition.regexFilter == None
  {
    [Rule(1, dntCheckAllow, Allow,
      Condition(Some(["xmlhttprequest"]), Some(DNT_POLICY_URL_FILTER), None))]
  }

  /**
   * make_dnt_signal_rules: two header rules at the DNT-header priority, the
   * first for top-level documents, the second with an empty condition.
   */
  function MakeDntSignalRules(dntHeader: Priority): (r: seq<Rule>)
    ensures |r| == 2 && SequentialIds(r) && WellFormedList(r)
    ensures forall k :: 0 <= k < |r| ==>
      r[k].priority == dntHeader &&
      r[k].action == ModifyHeaders([HeaderOp("DNT", "set", "1"), HeaderOp("Sec-GPC", "set", "1")])
    ensures r[0].condition == Condition(Some([MAIN_FRAME]), None, None)
    ensures r[1].condition == Condition(None, None, None)
  {
    [Rule(1, dntHeader, ModifyHeaders(DNT_SIGNAL_HEADERS), Condition(Some([MAIN_FRAME]), None, None)),
     Rule(2, dntHeader, ModifyHeaders(DNT_SIGNAL_HEADERS), Condition(None, None, None))]
  }

  /**
   * Every request, whatever its resource type, is admitted by exactly one of
   * the two signal rules, and so receives both headers exactly once.
   */
  lemma DntSignalRulesPartitionTypes(dntHeader: Priority, rt: string)
    ensures var r := MakeDntSignalRules(dntHeader);
      AdmitsResourceType(r[0].condition, rt) <==> !AdmitsResourceType(r[1].condition, rt)
  {
  }

  // ---------------------------------------------------------------------------
  // gen_204 beacon blocking

  /** The block rule pushed for `host` while the counter holds `id`. */
  function Gen204Rule(id: int, host: string): (r: Rule)
    ensures id >= 1 ==> WellFormedRule(r)
    ensures forall rt :: AdmitsResourceType(r.condition, rt) <==> rt == "ping"
  {
    Rule(id, 1, Block, Condition(Some(["ping"]), Some("|https://" + host + "/gen_204^"), None))
  }

  /** The list make_gen204_block_rules returns: one rule per host, pushed in order. */
  function Gen204Rules(hosts: seq<string>): (r: seq<Rule>)
    ensures |r| == |hosts|
  {
    if hosts == [] then []
    else Gen204Rules(hosts[..|hosts| - 1]) + [Gen204Rule(|hosts|, hosts[|hosts| - 1])]
  }

  /** Rule k of the gen_204 list is host k's rule, with id k + 1. */
  lemma {:induction false} Gen204RulesAt(hosts: seq<string>, k: int)
    requires 0 <= k < |hosts|
    ensures Gen204Rules(hosts)[k] == Gen204Rule(k + 1, hosts[k])
  {
    var n := |hosts| - 1;
    if k < n {
      Gen204RulesAt(hosts[..n], k);
    }
  }

  /**
   * The shape of the gen_204 list: as many rules as hosts, ids 1..n, and
   * rule k a priority-1 block of `ping` requests to host k's gen_204 path.
   */
  lemma {:induction false} Gen204RulesShape(hosts: seq<string>)
    ensures var r := Gen204Rules(hosts);
      |r| == |hosts| && SequentialIds(r) && WellFormedList(r) &&
      forall k :: 0 <= k < |r| ==>
        r[k].priority == 1 && r[k].action == Block &&
        r[k].condition == Condition(Some(["ping"]), Some("|https://" + hosts[k] + "/gen_204^"), None)
  {
    var r := Gen204Rules(hosts);
    forall k | 0 <= k < |r|
      ensures r[k] == Gen204Rule(k + 1, hosts[k])
    {
      Gen204RulesAt(hosts, k);
    }
  }

  /** make_gen204_block_rules, with its rules array and id counter. */
  method MakeGen204BlockRules(hosts: seq<string>) returns (rules: seq<Rule>)
    ensures rules == Gen204Rules(hosts)
  {
    rules := [];
    var id := 1;
    for i := 0 to |hosts|
      invariant id == i + 1
      invariant rules == Gen204Rules(hosts[..i])
    {
      var host := hosts[i];
      rules := rules + [Gen204Rule(id, host)];
      id := id + 1;
      assert hosts[..i + 1][..i] == hosts[..i];
    }
    assert hosts[..|hosts|] == hosts;
  }

  // ---------------------------------------------------------------------------
  // Google redirect bypass

  /** The host as written into a regexFilter: every slash, globally, becomes backslash-slash. */
  function EscapeSlashes(host: string): (r: string)
    ensures |r| == |host| + Slashes(host)
  {
    if host == [] then []
    else (if host[0] == '/' then "\\/" else [host[0]]) + EscapeSlashes(host[1..])
  }

  /** The number of slashes in `s`. */
  function Slashes(s: string): nat {
    if s == [] then 0 else (if s[0] == '/' then 1 else 0) + Slashes(s[1..])
  }

  /** The inverse of EscapeSlashes: backslash-slash becomes a slash again. */
  function UnescapeSlashes(s: string): string {
    if |s| >= 2 && s[0] == '\\' && s[1] == '/' then "/" + UnescapeSlashes(s[2..])
    else if s == [] then []
    else [s[0]] + UnescapeSlashes(s[1..])
  }

  /** The escaping works character by character: it distributes over concatenation. */
  lemma {:induction false} EscapeSlashesConcat(a: string, b: string)
    ensures EscapeSlashes(a + b) == EscapeSlashes(a) + EscapeSlashes(b)
  {
    if a != [] {
      assert (a + b)[1..] == a[1..] + b;
      EscapeSlashesConcat(a[1..], b);
    } else {
      assert a + b == b;
    }
  }

  /** A host without slashes appears in the regex unchanged. */
  lemma {:induction false} EscapeSlashesNoSlash(host: string)
    requires '/' !in host
    ensures EscapeSlashes(host) == host
  {
    if host != [] {
      assert host == [host[0]] + host[1..];
      EscapeSlashesNoSlash(host[1..]);
    }
  }

  /** An escaped host never begins with a bare slash. */
  lemma EscapeSlashesHead(host: string)
    requires host != []
    ensures EscapeSlashes(host)[0] == if host[0] == '/' then '\\' else host[0]
  {
  }

  /** Every slash in the escaped host is preceded by a backslash. */
  lemma {:induction false} EscapeSlashesEscapesEverySlash(host: string)
    ensures var r := EscapeSlashes(host);
      forall k :: 0 <= k < |r| && r[k] == '/' ==> 0 < k && r[k - 1] == '\\'
  {
    if host != [] {
      EscapeSlashesEscapesEverySlash(host[1..]);
      var head := if host[0] == '/' then "\\/" else [host[0]];
      var rest := EscapeSlashes(host[1..]);
      var r := EscapeSlashes(host);
      assert r == head + rest;
      if host[1..] != [] {
        EscapeSlashesHead(host[1..]);
      }
      forall k | 0 <= k < |r| && r[k] == '/'
        ensures 0 < k && r[k - 1] == '\\'
      {
        if k >= |head| {
          assert r[k] == rest[k - |head|];
        }
      }
    }
  }

  /** Unescaping the escaped host gives the host back: no information is lost. */
  lemma {:induction false} UnescapeEscapeSlashes(host: string)
    ensures UnescapeSlashes(EscapeSlashes(host)) == host
  {
    if host != [] {
      var rest := EscapeSlashes(host[1..]);
      UnescapeEscapeSlashes(host[1..]);
      if host[0] == '/' {
        assert EscapeSlashes(host) == "\\/" + rest;
        assert ("\\/" + rest)[2..] == rest;
      } else {
        assert EscapeSlashes(host) == [host[0]] + rest;
        assert ([host[0]] + rest)[1..] == rest;
        if host[1..] != [] {
          EscapeSlashesHead(host[1..]);
        }
      }
      assert host == [host[0]] + host[1..];
    }
  }

  /** The regexFilter of the redirect rule for `host` and query shape `param`. */
  function RedirectRegex(host: string, param: string): (r: string)
    ensures |r| == 35 + |host| + Slashes(host) + |param|
    ensures r[9..9 + |EscapeSlashes(host)|] == EscapeSlashes(host)
    ensures r[|r| - 20 - |param|..|r| - 20] == param
  {
    "^https://" + EscapeSlashes(host) + "/url\\?" + param + "=(https?://[^&]+).*$"
  }

  /** The redirect rule pushed for `host` and `param` while the counter holds `id`. */
  function RedirectRule(id: int, host: string, param: string): (r: Rule)
    ensures id >= 1 ==> WellFormedRule(r)
    ensures forall rt :: AdmitsResourceType(r.condition, rt) <==> rt == MAIN_FRAME
  {
    Rule(id, 1, Redirect(CAPTURED_URL),
      Condition(Some([MAIN_FRAME]), None, Some(RedirectRegex(host, param))))
  }

  /** The allow rule for redirector URLs with a %-escape, pushed after the four redirects. */
  function EncodedUrlAllowRule(id: int, host: string): (r: Rule)
    ensures id >= 1 ==> WellFormedRule(r)
    ensures forall rt :: AdmitsResourceType(r.condition, rt) <==> rt == MAIN_FRAME
    ensures forall param :: r.priority > RedirectRule(id, host, param).priority
  {
    Rule(id, 2, Allow, Condition(Some([MAIN_FRAME]), Some("|https://" + host + "/url?*%*|"), None))
  }

  /** The five rules one host contributes when the counter starts at `firstId`. */
  function HostRedirectRules(firstId: int, host: string): (r: seq<Rule>)
    ensures |r| == 5
    ensures forall k :: 0 <= k < |r| ==>
      r[k].id == firstId + k && r[k].condition.resourceTypes == Some([MAIN_FRAME])
    ensures forall k :: 0 <= k < 4 ==>
      r[k].priority == 1 && r[k].action == Redirect(CAPTURED_URL) &&
      r[k].condition.regexFilter == Some(RedirectRegex(host, REDIRECT_PARAMS[k]))
    ensures r[4].priority == 2 && r[4].action == Allow && r[4].condition.regexFilter == None
  {
    seq(|REDIRECT_PARAMS|, j requires 0 <= j < |REDIRECT_PARAMS| =>
      RedirectRule(firstId + j, host, REDIRECT_PARAMS[j]))
    + [EncodedUrlAllowRule(firstId + 4, host)]
  }

  /** The list make_google_redirect_rules returns: five rules per host, pushed in order. */
  function RedirectRules(hosts: seq<string>): (r: seq<Rule>)
    ensures |r| == 5 * |hosts|
  {
    if hosts == [] then []
    else
      var n := |hosts| - 1;
      RedirectRules(hosts[..n]) + HostRedirectRules(5 * n + 1, hosts[n])
  }

  /** Host i's rules occupy positions 5i .. 5i + 4, with ids from 5i + 1. */
  lemma {:induction false} RedirectRulesAt(hosts: seq<string>, i: int, j: int)
    requires 0 <= i < |hosts| && 0 <= j < 5
    ensures RedirectRules(hosts)[5 * i + j] ==
      if j < 4 then RedirectRule(5 * i + j + 1, hosts[i], REDIRECT_PARAMS[j])
      else EncodedUrlAllowRule(5 * i + 5, hosts[i])
  {
    var n := |hosts| - 1;
    if i < n {
      RedirectRulesAt(hosts[..n], i, j);
    }
  }

  /**
   * Across the whole redirect list: 5n rules, ids 1..5n in emission order,
   * every rule well formed and scoped to top-level documents.
   */
  lemma {:induction false} RedirectRulesIds(hosts: seq<string>)
    ensures var r := RedirectRules(hosts);
      |r| == 5 * |hosts| && SequentialIds(r) && WellFormedList(r) &&
      forall k :: 0 <= k < |r| ==> r[k].condition.resourceTypes == Some([MAIN_FRAME])
  {
    var r := RedirectRules(hosts);
    forall k | 0 <= k < |r|
      ensures r[k].id == k + 1 && WellFormedRule(r[k])
      ensures r[k].condition.resourceTypes == Some([MAIN_FRAME])
    {
      var i, j := k / 5, k % 5;
      assert k == 5 * i + j;
      RedirectRulesAt(hosts, i, j);
    }
    SequentialIdsAreUnique(r);
  }

  /**
   * Rule j (j < 4) of host i: a priority-1 redirect to the captured URL,
   * for the j-th query shape, with id 5i + j + 1.
   */
  lemma {:induction false} RedirectRulesRedirect(hosts: seq<string>, i: int, j: int)
    requires 0 <= i < |hosts| && 0 <= j < 4
    ensures var r := RedirectRules(hosts);
      r[5 * i + j].id == 5 * i + j + 1 &&
      r[5 * i + j].priority == 1 &&
      r[5 * i + j].action == Redirect(CAPTURED_URL) &&
      r[5 * i + j].condition.regexFilter == Some(RedirectRegex(hosts[i], REDIRECT_PARAMS[j])) &&
      r[5 * i + j].condition.urlFilter == None
  {
    RedirectRulesAt(hosts, i, j);
  }

  /**
   * The fifth rule of host i: a priority-2 allow, above the redirects, for
   * redirector URLs carrying a %-escape, with id 5i + 5.
   */
  lemma {:induction false} RedirectRulesEncodedAllow(hosts: seq<string>, i: int)
    requires 0 <= i < |hosts|
    ensures var r := RedirectRules(hosts);
      r[5 * i + 4].id == 5 * i + 5 &&
      r[5 * i + 4].priority == 2 &&
      r[5 * i + 4].action == Allow &&
      r[5 * i + 4].condition.urlFilter == Some("|https://" + hosts[i] + "/url?*%*|") &&
      r[5 * i + 4].condition.regexFilter == None
  {
    RedirectRulesAt(hosts, i, 4);
  }

  /** make_google_redirect_rules, with its rules array, id counter and inner loop over params. */
  method MakeGoogleRedirectRules(hosts: seq<string>) returns (rules: seq<Rule>)
    ensures rules == RedirectRules(hosts)
  {
    rules := [];
    var id := 1;
    for i := 0 to |hosts|
      invariant id == 5 * i + 1
      invariant rules == RedirectRules(hosts[..i])
    {
      var host := hosts[i];
      ghost var before := rules;
      for j := 0 to |REDIRECT_PARAMS|
        invariant id == 5 * i + 1 + j
        invariant rules == before + HostRedirectRules(5 * i + 1, host)[..j]
      {
        rules := rules + [RedirectRule(id, host, REDIRECT_PARAMS[j])];
        id := id + 1;
      }
      rules := rules + [EncodedUrlAllowRule(id, host)];
      id := id + 1;
      assert hosts[..i + 1][..i] == hosts[..i];
    }
    assert hosts[..|hosts|] == hosts;
  }
}

/** Reducing a host to its registrable domain, and unwrapping forwarded senders. */
module Domains {
  import opened Common
  import opened Text

  // public suffixes of two labels, under which a registrable domain has three
  const MULTI_TLD: set<seq<string>> := {
    ["co", "uk"], ["org", "uk"], ["gov", "uk"], ["ac", "uk"], ["me", "uk"], ["ltd", "uk"], ["plc", "uk"],
    ["co", "jm"], ["com", "jm"], ["org", "jm"], ["net", "jm"], ["edu", "jm"], ["gov", "jm"],
    ["co", "za"], ["org", "za"], ["com", "au"], ["net", "au"], ["org", "au"], ["co", "nz"],
    ["com", "br"], ["co", "in"], ["com", "mx"], ["com", "sg"], ["com", "hk"], ["co", "ke"], ["co", "tt"]
  }

  const CONSUMER: set<string> := {
    "gmail.com", "googlemail.com", "outlook.com", "hotmail.com", "live.com", "msn.com", "yahoo.com",
    "ymail.com", "rocketmail.com", "icloud.com", "me.com", "mac.com", "aol.com", "proton.me",
    "protonmail.com", "protonmail.ch", "pm.me", "gmx.com", "gmx.net", "zoho.com", "mail.com",
    "fastmail.com", "hey.com", "comcast.net", "verizon.net", "att.net", "sbcglobal.net", "cox.net",
    "btinternet.com", "yahoo.co.uk", "yahoo.co.in", "yahoo.ca", "yahoo.fr", "yahoo.de",
    "hotmail.co.uk", "outlook.co.uk", "live.co.uk"
  }

  // host.strip(".")
  function TrimDots(s: string): (r: string)
    ensures r != "" ==> r[0] != '.' && r[|r| - 1] != '.'
    ensures forall x :: x in r ==> x in s
    decreases |s|
  {
    if s == "" then s
    else if s[0] == '.' then TrimDots(s[1..])
    else if s[|s| - 1] == '.' then TrimDots(s[..|s| - 1])
    else s
  }

  function NonEmpty(parts: seq<string>): seq<string> {
    if parts == [] then [] else (if parts[0] == "" then [] else [parts[0]]) + NonEmpty(parts[1..])
  }

  function Clean(host: string): string {
    Lower(TrimDots(Strip(host)))
  }

  function Labels(host: string): seq<string> {
    NonEmpty(Split(Clean(host), '.'))
  }

  // the labels the registrable domain keeps, under given two-part suffixes
  function Reduce(tlds: set<seq<string>>, labels: seq<string>): seq<string> {
    var n := |labels|;
    if n >= 3 && labels[n - 2..] in tlds then labels[n - 3..]
    else if n >= 2 then labels[n - 2..]
    else labels
  }

  function Registered(tlds: set<seq<string>>, host: string): Option<string> {
    var labels := Labels(host);
    var n := |labels|;
    if n >= 3 && labels[n - 2..] in tlds then Some(Join(labels[n - 3..], '.'))
    else if n >= 2 then Some(Join(labels[n - 2..], '.'))
    else if Clean(host) == "" then None
    else Some(Clean(host))
  }

  // sender_resolver.registered_domain
  function RegisteredDomain(host: string): Option<string> {
    Registered(MULTI_TLD, host)
  }

  // a label of an already cleaned, whitespace-free host
  predicate CleanLabel(l: string) {
    l != "" && forall i :: 0 <= i < |l| ==> l[i] != '.' && !IsSpace(l[i]) && LowerChar(l[i]) == l[i]
  }

  predicate CleanLabels(labels: seq<string>) {
    forall k :: 0 <= k < |labels| ==> CleanLabel(labels[k])
  }

  lemma {:induction false} JoinChars(labels: seq<string>)
    requires CleanLabels(labels) && |labels| > 0
    ensures var s := Join(labels, '.');
            s != "" && s[0] != '.' && s[|s| - 1] != '.' &&
            forall i :: 0 <= i < |s| ==> !IsSpace(s[i]) && LowerChar(s[i]) == s[i]
  {
    assert CleanLabel(labels[0]);
    if |labels| == 1 {
    } else {
      assert CleanLabels(labels[1..]) by {
        assert forall k :: 0 <= k < |labels[1..]| ==> labels[1..][k] == labels[k + 1];
      }
      JoinChars(labels[1..]);
    }
  }

  lemma CleanFixed(s: string)
    requires s != "" && s[0] != '.' && s[|s| - 1] != '.'
    requires forall i :: 0 <= i < |s| ==> !IsSpace(s[i]) && LowerChar(s[i]) == s[i]
    ensures Clean(s) == s
  {
    assert TrimLeft(s) == s;
    assert TrimRight(s) == s;
    assert TrimDots(s) == s;
  }

  lemma {:induction false} NonEmptyAll(parts: seq<string>)
    requires forall k :: 0 <= k < |parts| ==> parts[k] != ""
    ensures NonEmpty(parts) == parts
  {
    if parts == [] {
    } else {
      NonEmptyAll(parts[1..]);
    }
  }

  // joining clean labels and splitting them again changes nothing
  lemma LabelsOfJoin(labels: seq<string>)
    requires CleanLabels(labels) && |labels| > 0
    ensures Labels(Join(labels, '.')) == labels && Clean(Join(labels, '.')) == Join(labels, '.')
  {
    JoinChars(labels);
    CleanFixed(Join(labels, '.'));
    assert forall k :: 0 <= k < |labels| ==> CleanLabel(labels[k]) && '.' !in labels[k];
    SplitJoin(labels, '.');
    NonEmptyAll(labels);
  }

  predicate SpaceFree(s: string) {
    forall i :: 0 <= i < |s| ==> !IsSpace(s[i])
  }

  lemma {:induction false} SplitChars(s: string, x: char)
    requires forall i :: 0 <= i < |s| ==> !IsSpace(s[i]) && LowerChar(s[i]) == s[i]
    ensures forall k :: 0 <= k < |Split(s, x)| ==>
              forall i :: 0 <= i < |Split(s, x)[k]| ==>
                !IsSpace(Split(s, x)[k][i]) && LowerChar(Split(s, x)[k][i]) == Split(s, x)[k][i]
    decreases |s|
  {
    var i := IndexOf(s, x);
    if i == |s| {
    } else {
      SplitChars(s[i + 1..], x);
    }
  }

  lemma {:induction false} NonEmptyClean(parts: seq<string>)
    requires forall k :: 0 <= k < |parts| ==> parts[k] == "" || CleanLabel(parts[k])
    ensures CleanLabels(NonEmpty(parts))
  {
    if parts == [] {
    } else {
      NonEmptyClean(parts[1..]);
    }
  }

  lemma LabelsClean(host: string)
    requires SpaceFree(host)
    ensures CleanLabels(Labels(host))
  {
    var s := Clean(host);
    var t := TrimDots(Strip(host));
    assert forall i :: 0 <= i < |t| ==> t[i] in t && t[i] in Strip(host) && t[i] in host;
    SplitChars(s, '.');
    var parts := Split(s, '.');
    forall k | 0 <= k < |parts| ensures parts[k] == "" || CleanLabel(parts[k]) {
      assert forall i :: 0 <= i < |parts[k]| ==> parts[k][i] in parts[k];
    }
    NonEmptyClean(parts);
  }

  lemma {:induction false} LastPart(s: string)
    requires s != "" && s[|s| - 1] != '.'
    ensures NonEmpty(Split(s, '.')) != []
    decreases |s|
  {
    var i := IndexOf(s, '.');
    if i == |s| {
    } else {
      LastPart(s[i + 1..]);
      assert NonEmpty(Split(s, '.')) == (if s[..i] == "" then [] else [s[..i]]) + NonEmpty(Split(s, '.')[1..]);
      assert Split(s, '.')[1..] == Split(s[i + 1..], '.');
    }
  }

  // with dots trimmed off, fewer than two labels means there is no dot at all
  lemma SingleLabel(s: string)
    requires s != "" ==> s[0] != '.' && s[|s| - 1] != '.'
    ensures var l := NonEmpty(Split(s, '.')); if s == "" then l == [] else |l| >= 2 || l == [s]
  {
    var i := IndexOf(s, '.');
    if i < |s| {
      var rest := Split(s[i + 1..], '.');
      assert Split(s, '.')[1..] == rest;
      LastPart(s[i + 1..]);
      assert NonEmpty(Split(s, '.')) == [s[..i]] + NonEmpty(rest);
    } else {
      assert Split(s, '.')[1..] == [];
    }
  }

  lemma LowerDots(s: string)
    ensures forall i :: 0 <= i < |s| ==> (Lower(s)[i] == '.' <==> s[i] == '.')
  {
  }

  // the program's string is the join of the reduced labels
  lemma RegisteredIsReduced(tlds: set<seq<string>>, host: string)
    ensures Registered(tlds, host) ==
            if Labels(host) == [] then None else Some(Join(Reduce(tlds, Labels(host)), '.'))
  {
    LowerDots(TrimDots(Strip(host)));
    SingleLabel(Clean(host));
  }

  predicate Pairs(tlds: set<seq<string>>) {
    forall l :: l in tlds ==> |l| == 2
  }

  lemma SuffixesArePairs()
    ensures Pairs(MULTI_TLD)
  {
  }

  lemma ReduceShape(tlds: set<seq<string>>, labels: seq<string>)
    requires Pairs(tlds) && labels != [] && CleanLabels(labels)
    ensures var kept := Reduce(tlds, labels);
            && 1 <= |kept| <= 3 && |kept| <= |labels| && kept == labels[|labels| - |kept|..]
            && (kept in tlds ==> kept == labels) && Reduce(tlds, kept) == kept && CleanLabels(kept)
  {
  }

  lemma KeptLabels(tlds: set<seq<string>>, host: string)
    requires Pairs(tlds) && SpaceFree(host) && Labels(host) != []
    ensures Registered(tlds, host).Some?
    ensures Labels(Registered(tlds, host).value) == Reduce(tlds, Labels(host))
    ensures Registered(tlds, Registered(tlds, host).value) == Registered(tlds, host)
  {
    LabelsClean(host);
    ReduceShape(tlds, Labels(host));
    RegisteredIsReduced(tlds, host);
    LabelsOfJoin(Reduce(tlds, Labels(host)));
    RegisteredIsReduced(tlds, Registered(tlds, host).value);
  }

  /** A registrable domain is a suffix of at most three of the host's labels, and
      never a bare two-part suffix when the host has a label before it. */
  lemma RegisteredShape(host: string)
    requires SpaceFree(host) && RegisteredDomain(host).Some?
    ensures var all, kept := Labels(host), Labels(RegisteredDomain(host).value);
            1 <= |kept| <= 3 && |kept| <= |all| && kept == all[|all| - |kept|..] &&
            (kept in MULTI_TLD ==> kept == all)
  {
    var tlds := MULTI_TLD;
    SuffixesArePairs();
    RegisteredIsReduced(tlds, host);
    LabelsClean(host);
    KeptLabels(tlds, host);
    ReduceShape(tlds, Labels(host));
  }

  lemma RegisteredIdempotent(host: string)
    requires SpaceFree(host) && RegisteredDomain(host).Some?
    ensures RegisteredDomain(RegisteredDomain(host).value) == RegisteredDomain(host)
  {
    SuffixesArePairs();
    RegisteredIsReduced(MULTI_TLD, host);
    KeptLabels(MULTI_TLD, host);
  }

  /** Prepending subdomains keeps the registrable domain exactly when the host was not
      itself a bare two-part suffix. */
  lemma SubdomainsKeep(sub: seq<string>, host: seq<string>)
    requires CleanLabels(sub) && CleanLabels(host) && |sub| > 0 && |host| >= 2
    ensures RegisteredDomain(Join(sub + host, '.')) == RegisteredDomain(Join(host, '.')) <==>
            host !in MULTI_TLD
  {
    SuffixesArePairs();
    SubdomainsKeepUnder(MULTI_TLD, sub, host);
  }

  lemma SubdomainsKeepUnder(tlds: set<seq<string>>, sub: seq<string>, host: seq<string>)
    requires Pairs(tlds) && CleanLabels(sub) && CleanLabels(host) && |sub| > 0 && |host| >= 2
    ensures Registered(tlds, Join(sub + host, '.')) == Registered(tlds, Join(host, '.')) <==> host !in tlds
  {
    ReduceBelow(tlds, sub, host);
    SameDomain(tlds, sub + host, host);
  }

  /** The registrable domain of a host, in any case, in terms of its labels: the last two, or
      the last three below a two-part suffix, or all there are. */
  lemma RegisteredLabels(host: string, labels: seq<string>)
    requires CleanLabels(labels) && labels != [] && Lower(host) == Join(labels, '.')
    ensures var n := |labels|;
            RegisteredDomain(host) ==
              Some(Join(if n >= 3 && labels[n - 2..] in MULTI_TLD then labels[n - 3..]
                        else if n >= 2 then labels[n - 2..] else labels, '.'))
  {
    SuffixesArePairs();
    RegisteredLabelsUnder(MULTI_TLD, host, labels);
  }

  lemma RegisteredLabelsUnder(tlds: set<seq<string>>, host: string, labels: seq<string>)
    requires Pairs(tlds) && CleanLabels(labels) && labels != [] && Lower(host) == Join(labels, '.')
    ensures Registered(tlds, host) == Some(Join(Reduce(tlds, labels), '.'))
  {
    CleanInAnyCase(host, labels);
    LabelsOfJoin(labels);
    RegisteredIsReduced(tlds, host);
  }

  lemma CleanInAnyCase(host: string, labels: seq<string>)
    requires CleanLabels(labels) && labels != [] && Lower(host) == Join(labels, '.')
    ensures Clean(host) == Join(labels, '.')
  {
    JoinChars(labels);
    LowerDots(host);
    EndsKept(host);
  }

  lemma EndsKept(host: string)
    requires host != "" && !IsSpace(host[0]) && !IsSpace(host[|host| - 1])
    requires host[0] != '.' && host[|host| - 1] != '.'
    ensures TrimDots(Strip(host)) == host
  {
    assert TrimLeft(host) == host;
    assert TrimRight(host) == host;
  }

  // two hosts share their registrable domain exactly when they keep the same labels
  lemma SameDomain(tlds: set<seq<string>>, a: seq<string>, b: seq<string>)
    requires Pairs(tlds) && CleanLabels(a) && CleanLabels(b) && a != [] && b != []
    ensures Registered(tlds, Join(a, '.')) == Registered(tlds, Join(b, '.')) <==> Reduce(tlds, a) == Reduce(tlds, b)
  {
    ReducedLabels(tlds, a);
    ReducedLabels(tlds, b);
    ByLabels(Registered(tlds, Join(a, '.')), Registered(tlds, Join(b, '.')), Reduce(tlds, a), Reduce(tlds, b));
  }

  lemma ByLabels(a: Option<string>, b: Option<string>, kept: seq<string>, other: seq<string>)
    requires kept != [] && a == Some(Join(kept, '.')) && Labels(a.value) == kept
    requires other != [] && b == Some(Join(other, '.')) && Labels(b.value) == other
    ensures a == b <==> kept == other
  {
  }

  lemma ReducedLabels(tlds: set<seq<string>>, labels: seq<string>)
    requires Pairs(tlds) && CleanLabels(labels) && labels != []
    ensures Reduce(tlds, labels) != []
    ensures Registered(tlds, Join(labels, '.')) == Some(Join(Reduce(tlds, labels), '.'))
    ensures Labels(Join(Reduce(tlds, labels), '.')) == Reduce(tlds, labels)
  {
    LabelsOfJoin(labels);
    RegisteredIsReduced(tlds, Join(labels, '.'));
    ReduceShape(tlds, labels);
    LabelsOfJoin(Reduce(tlds, labels));
  }

  lemma TailBelow(sub: seq<string>, host: seq<string>, k: nat)
    requires k <= |host|
    ensures var all := sub + host; all[|all| - k..] == host[|host| - k..]
  {
  }

  lemma ReduceBelowLong(tlds: set<seq<string>>, sub: seq<string>, host: seq<string>)
    requires |host| >= 3
    ensures Reduce(tlds, sub + host) == Reduce(tlds, host)
  {
    TailBelow(sub, host, 2);
    TailBelow(sub, host, 3);
  }

  lemma ReduceBelowPair(tlds: set<seq<string>>, sub: seq<string>, host: seq<string>)
    requires |sub| > 0 && |host| == 2
    ensures |Reduce(tlds, sub + host)| == 3 <==> host in tlds
    ensures host !in tlds ==> Reduce(tlds, sub + host) == host
  {
    TailBelow(sub, host, 2);
    assert host[0..] == host;
  }

  lemma ReduceBelow(tlds: set<seq<string>>, sub: seq<string>, host: seq<string>)
    requires Pairs(tlds) && |sub| > 0 && |host| >= 2
    ensures Reduce(tlds, sub + host) == Reduce(tlds, host) <==> host !in tlds
  {
    if |host| == 2 {
      ReduceBelowPair(tlds, sub, host);
      assert Reduce(tlds, host) == host[0..] == host;
    } else {
      ReduceBelowLong(tlds, sub, host);
    }
  }

  // ---- forwarded senders ---------------------------------------------------------

  // the registrable domains of a list of hosts
  function Reduced(hosts: seq<string>): (doms: seq<Option<string>>)
    ensures |doms| == |hosts| && forall i :: 0 <= i < |hosts| ==> doms[i] == RegisteredDomain(hosts[i])
  {
    seq(|hosts|, i requires 0 <= i < |hosts| => RegisteredDomain(hosts[i]))
  }

  lemma ReducedConcat(a: seq<string>, b: seq<string>)
    ensures Reduced(a + b) == Reduced(a) + Reduced(b)
  {
    forall i | 0 <= i < |a| + |b| ensures Reduced(a + b)[i] == (Reduced(a) + Reduced(b))[i] {
      SameHost((a + b)[i], if i < |a| then a[i] else b[i - |a|]);
    }
  }

  lemma SameHost(host: string, other: string)
    requires host == other
    ensures RegisteredDomain(host) == RegisteredDomain(other)
  {
  }

  predicate Skipped(dom: Option<string>, skip: set<string>) {
    dom.None? || dom.value in skip
  }

  // r is the first domain of the list that is not to be skipped, or None when all are
  predicate IsFirst(doms: seq<Option<string>>, skip: set<string>, r: Option<string>) {
    if r.None? then forall k :: 0 <= k < |doms| ==> Skipped(doms[k], skip)
    else
      !Skipped(r, skip) &&
      exists k :: 0 <= k < |doms| && doms[k] == r && forall j :: 0 <= j < k ==> Skipped(doms[j], skip)
  }

  lemma FirstIsOne(doms: seq<Option<string>>, skip: set<string>, r: Option<string>, other: Option<string>)
    requires IsFirst(doms, skip, r) && IsFirst(doms, skip, other)
    ensures r == other
  {
    if r.Some? && other.Some? {
      var k :| 0 <= k < |doms| && doms[k] == r && forall j :: 0 <= j < k ==> Skipped(doms[j], skip);
      var n :| 0 <= n < |doms| && doms[n] == other && forall j :: 0 <= j < n ==> Skipped(doms[j], skip);
    }
  }

  lemma {:induction false} SomeFirst(doms: seq<Option<string>>, skip: set<string>) returns (r: Option<string>)
    ensures IsFirst(doms, skip, r)
  {
    if doms == [] {
      r := None;
    } else if Skipped(doms[0], skip) {
      r := SomeFirst(doms[1..], skip);
      FirstBehind([doms[0]], doms[1..], skip, r);
      assert [doms[0]] + doms[1..] == doms;
    } else {
      r := doms[0];
    }
  }

  lemma FirstBehind(front: seq<Option<string>>, doms: seq<Option<string>>, skip: set<string>, r: Option<string>)
    requires IsFirst(front, skip, None) && IsFirst(doms, skip, r)
    ensures IsFirst(front + doms, skip, r)
  {
    if r.Some? {
      var k :| 0 <= k < |doms| && doms[k] == r && forall j :: 0 <= j < k ==> Skipped(doms[j], skip);
      assert (front + doms)[|front| + k] == r;
    }
  }

  lemma FirstBefore(doms: seq<Option<string>>, more: seq<Option<string>>, skip: set<string>, r: Option<string>)
    requires r.Some? && IsFirst(doms, skip, r)
    ensures IsFirst(doms + more, skip, r)
  {
    var k :| 0 <= k < |doms| && doms[k] == r && forall j :: 0 <= j < k ==> Skipped(doms[j], skip);
    assert (doms + more)[k] == r;
  }

  // the loop of both lists: the DKIM signers, and the From: hosts of a body
  method FirstOutside(hosts: seq<string>, skip: set<string>) returns (r: Option<string>)
    ensures IsFirst(Reduced(hosts), skip, r)
  {
    ghost var doms := Reduced(hosts);
    for i := 0 to |hosts|
      invariant forall k :: 0 <= k < i ==> Skipped(doms[k], skip)
    {
      var dom := RegisteredDomain(hosts[i]);
      if dom.Some? && dom.value !in skip {
        assert doms[i] == dom;
        return dom;
      }
    }
    return None;
  }

  // sender_resolver._scan_from over the hosts of the From: lines, in order
  method ScanFrom(hosts: seq<string>) returns (r: Option<string>)
    ensures IsFirst(Reduced(hosts), CONSUMER, r)
  {
    r := FirstOutside(hosts, CONSUMER);
  }

  /** However many personal accounts forwarded the mail on, the scan reaches the same sender,
      and finds nothing exactly when every hop is personal. */
  lemma ForwardsSkipped(hops: seq<string>, hosts: seq<string>, skip: set<string>, r: Option<string>)
    requires IsFirst(Reduced(hops), skip, None)
    ensures IsFirst(Reduced(hops + hosts), skip, r) <==> IsFirst(Reduced(hosts), skip, r)
  {
    var a, b := Reduced(hops), Reduced(hosts);
    ReducedConcat(hops, hosts);
    if IsFirst(b, skip, r) {
      FirstBehind(a, b, skip, r);
    } else if IsFirst(a + b, skip, r) {
      var other := SomeFirst(b, skip);
      FirstBehind(a, b, skip, other);
      FirstIsOne(a + b, skip, r, other);
    }
  }

  datatype Source = Dkim | Header | Body
  datatype Sender = Sender(domain: string, source: Source)

  // what the resolver may answer, in terms of the domains it is given: DKIM before From, and
  // in place of a consumer one the first of the body that is none
  predicate Resolved(dkim: seq<Option<string>>, from: Option<string>, parts: seq<Option<string>>,
                     consumer: set<string>, r: Option<Sender>)
  {
    match r
    case None => IsFirst(dkim, {}, None) && from.None?
    case Some(Sender(domain, source)) =>
      match source
      case Body =>
        IsFirst(parts, consumer, Some(domain)) &&
        exists outer :: outer in consumer &&
          (IsFirst(dkim, {}, Some(outer)) || (IsFirst(dkim, {}, None) && from == Some(outer)))
      case Dkim => IsFirst(dkim, {}, Some(domain)) && (domain in consumer ==> IsFirst(parts, consumer, None))
      case Header =>
        IsFirst(dkim, {}, None) && from == Some(domain) && (domain in consumer ==> IsFirst(parts, consumer, None))
  }

  // sender_resolver.resolve as long as a DKIM or a From domain is present; None is
  // the body fallback beyond it. `text` and `html` are the From: hosts of the parts.
  method Resolve(dkim: seq<string>, from: Option<string>, text: seq<string>, html: seq<string>)
    returns (r: Option<Sender>)
    ensures Resolved(Reduced(dkim), if from.Some? then RegisteredDomain(from.value) else None,
                     Reduced(text + html), CONSUMER, r)
  {
    var dkimDom := FirstOutside(dkim, {});
    var fromDom := if from.Some? then RegisteredDomain(from.value) else None;
    var outer := if dkimDom.Some? then dkimDom else fromDom;
    var body := None;
    if outer.Some? && outer.value in CONSUMER {
      body := ScanFrom(text);
      if body.None? {
        body := ScanFrom(html);
      }
      ForwardedInParts(text, html, CONSUMER, body);
    }
    if body.Some? {
      return Some(Sender(body.value, Body));
    }
    if dkimDom.Some? {
      return Some(Sender(dkimDom.value, Dkim));
    }
    if fromDom.Some? {
      return Some(Sender(fromDom.value, Header));
    }
    return None;
  }

  // the text part is scanned before the html part
  lemma ForwardedInParts(text: seq<string>, html: seq<string>, skip: set<string>, r: Option<string>)
    requires (r.Some? && IsFirst(Reduced(text), skip, r)) ||
             (IsFirst(Reduced(text), skip, None) && IsFirst(Reduced(html), skip, r))
    ensures IsFirst(Reduced(text + html), skip, r)
  {
    ReducedConcat(text, html);
    if r.Some? && IsFirst(Reduced(text), skip, r) {
      FirstBefore(Reduced(text), Reduced(html), skip, r);
    } else {
      FirstBehind(Reduced(text), Reduced(html), skip, r);
    }
  }
}

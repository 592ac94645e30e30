/**
 * The evaluation of a scan report: findings bucketed by severity, the high and medium
 * count thresholds, and the CVE blacklist. Each enabled check runs, and each one that
 * fails marks the task Failed with its own message.
 */
module Evaluator {
  import opened Wrappers
  import opened JsText
  import opened ScanReport
  import opened TaskStatus

  // ----- Severity buckets

  /** Whether the finding's severity, lower-cased, is `level`. */
  predicate HasSeverity(v: Vulnerability, level: string)
  {
    ToLower(v.severity) == level
  }

  /** The findings of one severity level, in report order. */
  function OfSeverity(vs: seq<Vulnerability>, level: string): seq<Vulnerability>
    decreases |vs|
  {
    if vs == [] then []
    else OfSeverity(vs[..|vs| - 1], level) + (if HasSeverity(vs[|vs| - 1], level) then [vs[|vs| - 1]] else [])
  }

  /** The names of all findings, in report order. */
  function Names(vs: seq<Vulnerability>): (names: seq<string>)
    ensures |names| == |vs| && forall i :: 0 <= i < |vs| ==> names[i] == vs[i].name
  {
    seq(|vs|, i requires 0 <= i < |vs| => vs[i].name)
  }

  /** The build warning issued for each finding. */
  function WarningLine(v: Vulnerability): string
  {
    "Image is affected by " + ToLower(v.severity) + " severity vulnerability " + v.name
  }

  function Warnings(vs: seq<Vulnerability>): (ws: seq<string>)
    ensures |ws| == |vs| && forall i :: 0 <= i < |vs| ==> ws[i] == WarningLine(vs[i])
  {
    seq(|vs|, i requires 0 <= i < |vs| => WarningLine(vs[i]))
  }

  /**
   * The evaluation loop: collects every name, the medium and the high findings, and a
   * warning per finding, in one pass in report order.
   */
  method Classify(vs: seq<Vulnerability>)
    returns (names: seq<string>, medium: seq<Vulnerability>, high: seq<Vulnerability>, warnings: seq<string>)
    ensures names == Names(vs) && warnings == Warnings(vs)
    ensures medium == OfSeverity(vs, "medium") && high == OfSeverity(vs, "high")
  {
    names, medium, high, warnings := [], [], [], [];
    for i := 0 to |vs|
      invariant names == Names(vs[..i]) && warnings == Warnings(vs[..i])
      invariant medium == OfSeverity(vs[..i], "medium") && high == OfSeverity(vs[..i], "high")
    {
      var v := vs[i];
      ClassifyStep(vs, i);
      BucketStep(vs, i, "medium");
      BucketStep(vs, i, "high");
      names := names + [v.name];
      var severity := ToLower(v.severity);
      if severity == "medium" {
        medium := medium + [v];
      }
      if severity == "high" {
        high := high + [v];
      }
      warnings := warnings + [WarningLine(v)];
    }
    assert vs[..|vs|] == vs;
  }

  /** Extending the prefix by one finding extends each result of the evaluation loop by its part. */
  lemma ClassifyStep(vs: seq<Vulnerability>, i: nat)
    requires i < |vs|
    ensures Names(vs[..i + 1]) == Names(vs[..i]) + [vs[i].name]
    ensures Warnings(vs[..i + 1]) == Warnings(vs[..i]) + [WarningLine(vs[i])]
  {
    assert vs[..i + 1][..i] == vs[..i];
  }

  /** Extending the prefix by one finding adds it to the bucket of its level only. */
  lemma BucketStep(vs: seq<Vulnerability>, i: nat, level: string)
    requires i < |vs|
    ensures OfSeverity(vs[..i + 1], level)
            == OfSeverity(vs[..i], level) + (if HasSeverity(vs[i], level) then [vs[i]] else [])
  {
    assert vs[..i + 1][..i] == vs[..i];
  }

  /** A bucket holds exactly the findings of its level. */
  lemma {:induction false} OfSeverityMembers(vs: seq<Vulnerability>, level: string, v: Vulnerability)
    ensures v in OfSeverity(vs, level) <==> v in vs && HasSeverity(v, level)
    decreases |vs|
  {
    if vs != [] {
      OfSeverityMembers(vs[..|vs| - 1], level, v);
      assert vs == vs[..|vs| - 1] + [vs[|vs| - 1]];
    }
  }

  /** Bucketing distributes over concatenation: findings keep their relative order. */
  lemma {:induction false} OfSeverityAppend(xs: seq<Vulnerability>, ys: seq<Vulnerability>, level: string)
    ensures OfSeverity(xs + ys, level) == OfSeverity(xs, level) + OfSeverity(ys, level)
    decreases |ys|
  {
    if ys == [] {
      assert xs + ys == xs;
    } else {
      var zs, init := xs + ys, ys[..|ys| - 1];
      var last := ys[|ys| - 1];
      var t := if HasSeverity(last, level) then [last] else [];
      assert zs[..|zs| - 1] == xs + init && zs[|zs| - 1] == last;
      assert OfSeverity(zs, level) == OfSeverity(xs + init, level) + t;
      assert OfSeverity(ys, level) == OfSeverity(init, level) + t;
      OfSeverityAppend(xs, init, level);
    }
  }

  /** No finding is in both buckets, so together they hold at most all the findings. */
  lemma {:induction false} BucketsDisjoint(vs: seq<Vulnerability>)
    ensures |OfSeverity(vs, "medium")| + |OfSeverity(vs, "high")| <= |vs|
    ensures forall v :: v in OfSeverity(vs, "medium") ==> v !in OfSeverity(vs, "high")
    decreases |vs|
  {
    if vs != [] {
      BucketsDisjoint(vs[..|vs| - 1]);
    }
    forall v | v in OfSeverity(vs, "medium") ensures v !in OfSeverity(vs, "high") {
      OfSeverityMembers(vs, "medium", v);
      OfSeverityMembers(vs, "high", v);
    }
  }

  // ----- Policy inputs

  /** The policy inputs of the task; a threshold or blacklist that was not supplied is `None`. */
  datatype PolicyInputs = PolicyInputs(
    failOnHigh: bool, highThreshold: Option<string>,
    failOnMedium: bool, mediumThreshold: Option<string>,
    failOnBlacklist: bool, blacklist: Option<string>)

  /** A supplied threshold is read with unary `+`; one not supplied is -1. */
  function ThresholdValue(input: Option<string>): JsNumber
  {
    match input
    case None => Num(-1)
    case Some(s) => ToNumber(s)
  }

  /** `count >= threshold`; every comparison with NaN is false. */
  predicate AtLeast(count: nat, threshold: JsNumber)
  {
    match threshold
    case Num(n) => count >= n
    case NaN => false
  }

  /** A threshold of n fails exactly the counts of n and above: n - 1 findings pass, n fail. */
  lemma ThresholdBoundary(n: int, count: nat)
    ensures AtLeast(count, ThresholdValue(Some(IntToString(n)))) <==> count >= n
  {
    ToNumberOfIntToString(n);
  }

  /** A threshold that was not supplied is -1, so an enabled check fails whatever the count. */
  lemma MissingThresholdFails(count: nat)
    ensures AtLeast(count, ThresholdValue(None))
  {
  }

  /**
   * The blacklist: without text, no entries; otherwise one entry per line, split at
   * `\r?\n` and trimmed, blank lines giving empty entries.
   */
  function ParseBlacklist(input: Option<string>): (entries: seq<string>)
    ensures input.None? || input == Some("") ==> entries == []
    ensures input.Some? && input.value != "" ==>
              |entries| == |SplitLines(input.value)| == LineFeeds(input.value) + 1
              && forall i :: 0 <= i < |entries| ==> entries[i] == Trim(SplitLines(input.value)[i])
  {
    match input
    case None => []
    case Some(s) =>
      if s == "" then []
      else
        var lines := SplitLines(s);
        SplitLinesCount(s);
        seq(|lines|, i requires 0 <= i < |lines| => Trim(lines[i]))
  }

  /** Entries that are already trimmed and single-line come back from their joined text. */
  lemma ParseBlacklistOfJoined(entries: seq<string>)
    requires |entries| >= 1 && JoinLines(entries) != ""
    requires forall i :: 0 <= i < |entries| ==> SingleLine(entries[i]) && Trimmed(entries[i])
    ensures ParseBlacklist(Some(JoinLines(entries))) == entries
  {
    SplitJoinLines(entries);
    forall i | 0 <= i < |entries| ensures Trim(entries[i]) == entries[i] {
      TrimOfTrimmed(entries[i]);
    }
  }

  /** Windows line endings separate entries too: the carriage return is not part of an entry. */
  lemma ParseBlacklistCrlf(a: string, b: string)
    requires SingleLine(a) && SingleLine(b) && Trimmed(a) && Trimmed(b)
    ensures ParseBlacklist(Some(a + "\r\n" + b)) == [a, b]
  {
    var s := a + "\r\n" + b;
    assert s[|a|] == '\r';
    SplitAfterCrlfLine(a, b);
    SplitSingleLine(b);
    assert SplitLines(s) == [a, b];
    TrimOfTrimmed(a);
    TrimOfTrimmed(b);
  }

  lemma AppendAssociativeStrings(a: string, b: string, c: string)
    ensures a + "\n" + (b + "\n" + ("" + "\n" + c)) == a + "\n" + b + "\n" + "\n" + c
  {
  }

  /**
   * A blank line between entries stays as an empty entry, as in the blacklist
   * `CVE-2019-1563\nCVE-2019-1567\n\nCVE-2019-1561` of the integration test.
   */
  lemma BlankLineKept(a: string, b: string, c: string)
    requires SingleLine(a) && SingleLine(b) && SingleLine(c)
    requires Trimmed(a) && Trimmed(b) && Trimmed(c)
    ensures ParseBlacklist(Some(a + "\n" + b + "\n" + "\n" + c)) == [a, b, "", c]
  {
    var entries := [a, b, "", c];
    assert entries[1..] == [b, "", c] && entries[2..] == ["", c] && entries[3..] == [c];
    assert JoinLines(entries[3..]) == c;
    assert JoinLines(entries[2..]) == "" + "\n" + c by { assert entries[2..][1..] == entries[3..]; }
    assert JoinLines(entries[1..]) == b + "\n" + ("" + "\n" + c) by { assert entries[1..][1..] == entries[2..]; }
    assert JoinLines(entries) == a + "\n" + (b + "\n" + ("" + "\n" + c));
    AppendAssociativeStrings(a, b, c);
    ParseBlacklistOfJoined(entries);
  }


  // ----- Blacklist matching

  /** `list.find(cve => cve.toUpperCase() == key)`: the first entry whose upper case is `key`. */
  function Find(list: seq<string>, key: string): (r: Option<string>)
    ensures r.Some? ==> r.value in list && ToUpper(r.value) == key
    ensures r.Some? ==> exists i :: 0 <= i < |list| && list[i] == r.value
                                    && forall j :: 0 <= j < i ==> ToUpper(list[j]) != key
    ensures r.None? ==> forall e :: e in list ==> ToUpper(e) != key
    decreases |list|
  {
    if list == [] then None
    else if ToUpper(list[0]) == key then Some(list[0])
    else
      var r := Find(list[1..], key);
      FindShift(list, key, r);
      r
  }

  /** The first match in the tail, past a first entry that does not match, is the first match overall. */
  lemma FindShift(list: seq<string>, key: string, r: Option<string>)
    requires |list| >= 1 && ToUpper(list[0]) != key
    requires r.Some? ==> exists i :: 0 <= i < |list[1..]| && list[1..][i] == r.value
                                     && forall j :: 0 <= j < i ==> ToUpper(list[1..][j]) != key
    ensures r.Some? ==> exists i :: 0 <= i < |list| && list[i] == r.value
                                    && forall j :: 0 <= j < i ==> ToUpper(list[j]) != key
  {
    if r.Some? {
      var i :| 0 <= i < |list[1..]| && list[1..][i] == r.value
               && forall j :: 0 <= j < i ==> ToUpper(list[1..][j]) != key;
      assert list[i + 1] == r.value;
      forall j | 0 <= j < i + 1 ensures ToUpper(list[j]) != key {
        if j > 0 { assert list[j] == list[1..][j - 1]; }
      }
    }
  }

  /**
   * Whether the finding's name is blacklisted: `find` must return an entry, and the
   * entry must be truthy, so an empty entry found for an empty name does not count.
   */
  predicate Blacklisted(name: string, list: seq<string>)
  {
    var found := Find(list, ToUpper(name));
    found.Some? && found.value != ""
  }

  /** A name is blacklisted exactly when it is not empty and equals an entry, ignoring case. */
  lemma BlacklistedIff(name: string, list: seq<string>)
    ensures Blacklisted(name, list) <==> name != "" && exists e :: e in list && ToUpper(e) == ToUpper(name)
  {
    var found := Find(list, ToUpper(name));
    if found.Some? {
      assert |found.value| == |ToUpper(found.value)| == |name|;
    }
  }

  /** Matching ignores case but is exact: a longer identifier does not match a prefix of it. */
  lemma BlacklistExactMatch()
    ensures Blacklisted("cve-2021-1234", ["CVE-2021-1234"])
    ensures !Blacklisted("CVE-2021-12345", ["CVE-2021-1234"])
  {
    assert ToUpper("cve-2021-1234") == "CVE-2021-1234";
    assert ToUpper("CVE-2021-1234") == "CVE-2021-1234";
    assert |ToUpper("CVE-2021-12345")| == 14;
  }

  function BlacklistMessage(name: string): string
  {
    "Failed because the blacklisted CVE " + ToUpper(name) + " has been detected"
  }

  /** The findings whose names are blacklisted, in report order. */
  function BlacklistHits(vs: seq<Vulnerability>, list: seq<string>): seq<Vulnerability>
    decreases |vs|
  {
    if vs == [] then []
    else BlacklistHits(vs[..|vs| - 1], list) + (if Blacklisted(vs[|vs| - 1].name, list) then [vs[|vs| - 1]] else [])
  }

  /** There are blacklist hits exactly when some finding's name is blacklisted. */
  lemma {:induction false} BlacklistHitsEmptyIff(vs: seq<Vulnerability>, list: seq<string>)
    ensures BlacklistHits(vs, list) == [] <==> forall v :: v in vs ==> !Blacklisted(v.name, list)
    decreases |vs|
  {
    if vs != [] {
      BlacklistHitsEmptyIff(vs[..|vs| - 1], list);
      assert vs == vs[..|vs| - 1] + [vs[|vs| - 1]];
    }
  }

  /** The messages of the blacklist hits. */
  function BlacklistFailureTexts(hits: seq<Vulnerability>): (r: seq<Field>)
    ensures |r| == |hits| && forall i :: 0 <= i < |hits| ==> r[i] == Text(BlacklistMessage(hits[i].name))
  {
    seq(|hits|, i requires 0 <= i < |hits| => Text(BlacklistMessage(hits[i].name)))
  }

  /** One more finding adds its message exactly when its name is blacklisted. */
  lemma BlacklistHitsStep(vs: seq<Vulnerability>, i: nat, list: seq<string>)
    requires i < |vs|
    ensures BlacklistFailureTexts(BlacklistHits(vs[..i + 1], list))
            == BlacklistFailureTexts(BlacklistHits(vs[..i], list))
               + (if Blacklisted(vs[i].name, list) then [Text(BlacklistMessage(vs[i].name))] else [])
  {
    assert vs[..i + 1][..i] == vs[..i];
  }

  // ----- The three checks

  function HighMessage(count: nat): string
  {
    "Failed due to " + NatToString(count) + " detected high severity vulnerabilities"
  }

  function MediumMessage(count: nat): string
  {
    "Failed due to " + NatToString(count) + " detected medium severity vulnerabilities"
  }

  /** The high check fails when it is enabled and the high count reaches the threshold. */
  predicate HighFails(p: PolicyInputs, highCount: nat)
  {
    p.failOnHigh && AtLeast(highCount, ThresholdValue(p.highThreshold))
  }

  /** The medium check fails when it is enabled and the medium count reaches the threshold. */
  predicate MediumFails(p: PolicyInputs, mediumCount: nat)
  {
    p.failOnMedium && AtLeast(mediumCount, ThresholdValue(p.mediumThreshold))
  }

  /** The blacklist check runs when it is enabled and the parsed blacklist has entries. */
  predicate BlacklistRuns(p: PolicyInputs)
  {
    p.failOnBlacklist && |ParseBlacklist(p.blacklist)| > 0
  }

  /**
   * The failure messages of one evaluation, in the order they are reported: the high
   * check, the medium check, then one message per blacklisted finding.
   */
  function PolicyFailures(p: PolicyInputs, highCount: nat, mediumCount: nat, vs: seq<Vulnerability>): seq<Field>
  {
    var list := ParseBlacklist(p.blacklist);
    (if HighFails(p, highCount) then [Text(HighMessage(highCount))] else [])
    + (if MediumFails(p, mediumCount) then [Text(MediumMessage(mediumCount))] else [])
    + (if BlacklistRuns(p) then BlacklistFailureTexts(BlacklistHits(vs, list)) else [])
  }

  /** The failure messages of a report: its own high and medium counts against the policy. */
  function ReportFailures(p: PolicyInputs, vs: seq<Vulnerability>): seq<Field>
  {
    PolicyFailures(p, |OfSeverity(vs, "high")|, |OfSeverity(vs, "medium")|, vs)
  }

  /**
   * Every check contributes independently: one message for each failing threshold and
   * one per blacklist hit, whatever the other checks found.
   */
  lemma FailureCount(p: PolicyInputs, vs: seq<Vulnerability>)
    ensures |ReportFailures(p, vs)|
            == (if HighFails(p, |OfSeverity(vs, "high")|) then 1 else 0)
             + (if MediumFails(p, |OfSeverity(vs, "medium")|) then 1 else 0)
             + (if BlacklistRuns(p) then |BlacklistHits(vs, ParseBlacklist(p.blacklist))| else 0)
  {
  }

  /**
   * The evaluation passes exactly when no threshold is reached and no finding is
   * blacklisted (or the blacklist check does not run).
   */
  lemma PassesIff(p: PolicyInputs, vs: seq<Vulnerability>)
    ensures ReportFailures(p, vs) == [] <==>
              !HighFails(p, |OfSeverity(vs, "high")|)
              && !MediumFails(p, |OfSeverity(vs, "medium")|)
              && (BlacklistRuns(p) ==> forall v :: v in vs ==> !Blacklisted(v.name, ParseBlacklist(p.blacklist)))
  {
    BlacklistHitsEmptyIff(vs, ParseBlacklist(p.blacklist));
  }

  /**
   * A high threshold of 1 fails on a single high finding, and a disabled medium check
   * adds no message even when there are medium findings.
   */
  lemma SingleHighFindingFails(p: PolicyInputs, vs: seq<Vulnerability>)
    requires p.failOnHigh && p.highThreshold == Some("1")
    requires !p.failOnMedium && !p.failOnBlacklist
    requires |OfSeverity(vs, "high")| == 1
    ensures ReportFailures(p, vs) == [Text(HighMessage(1))]
  {
    assert IntToString(1) == NatToString(1) == "1";
    ThresholdBoundary(1, 1);
  }

  /** An empty report has empty buckets and fails only thresholds that 0 already reaches. */
  lemma EmptyReport(p: PolicyInputs)
    ensures OfSeverity([], "high") == [] && OfSeverity([], "medium") == []
    ensures ReportFailures(p, []) == [] <==> !HighFails(p, 0) && !MediumFails(p, 0)
  {
  }

  /**
   * The evaluation at the end of the run: the high check, the medium check and the
   * blacklist check all run in this order, each appending its failures to the task result.
   */
  method EvaluatePolicies(p: PolicyInputs, highCount: nat, mediumCount: nat, vs: seq<Vulnerability>, result: TaskResult)
    modifies result
    ensures result.failures == old(result.failures) + PolicyFailures(p, highCount, mediumCount, vs)
  {
    ghost var start := result.failures;
    ghost var highPart: seq<Field> := if HighFails(p, highCount) then [Text(HighMessage(highCount))] else [];
    ghost var mediumPart: seq<Field> := if MediumFails(p, mediumCount) then [Text(MediumMessage(mediumCount))] else [];
    if p.failOnHigh {
      if AtLeast(highCount, ThresholdValue(p.highThreshold)) {
        result.SetFailed(Text(HighMessage(highCount)));
      }
    }
    assert result.failures == start + highPart;
    if p.failOnMedium {
      if AtLeast(mediumCount, ThresholdValue(p.mediumThreshold)) {
        result.SetFailed(Text(MediumMessage(mediumCount)));
      }
    }
    assert result.failures == start + highPart + mediumPart;
    var list := ParseBlacklist(p.blacklist);
    ghost var blacklistPart := if BlacklistRuns(p) then BlacklistFailureTexts(BlacklistHits(vs, list)) else [];
    if p.failOnBlacklist && |list| > 0 {
      CheckBlacklist(vs, list, result);
    }
    assert result.failures == start + highPart + mediumPart + blacklistPart;
    assert PolicyFailures(p, highCount, mediumCount, vs) == highPart + mediumPart + blacklistPart;
    AppendAssociative(start, highPart, mediumPart, blacklistPart);
  }

  lemma AppendAssociative<T>(a: seq<T>, b: seq<T>, c: seq<T>, d: seq<T>)
    ensures a + b + c + d == a + (b + c + d)
  {
  }

  /** The blacklist loop: a failure for each finding whose name `find` locates in the list. */
  method CheckBlacklist(vs: seq<Vulnerability>, list: seq<string>, result: TaskResult)
    modifies result
    ensures result.failures == old(result.failures) + BlacklistFailureTexts(BlacklistHits(vs, list))
  {
    for i := 0 to |vs|
      invariant result.failures == old(result.failures) + BlacklistFailureTexts(BlacklistHits(vs[..i], list))
    {
      BlacklistHitsStep(vs, i, list);
      var name := ToUpper(vs[i].name);
      var found := Find(list, name);
      if found.Some? && found.value != "" {
        result.SetFailed(Text(BlacklistMessage(vs[i].name)));
      }
    }
    assert vs[..|vs|] == vs;
  }
}

/**
 * Tag reconciliation: how a bookmark's tag list changes after its link has
 * been classified. Health tags are the tags starting with `@HEALTH_`; they
 * are the only tags the health check adds or removes.
 */
module Tags {
  import opened Classifier
  import opened Decimal

  const HEALTH_PREFIX: string := "@HEALTH_"

  /** `strings.HasPrefix(t, "@HEALTH_")`. */
  predicate IsHealthTag(t: string) {
    HEALTH_PREFIX <= t
  }

  predicate NoHealthTags(tags: seq<string>) {
    forall i :: 0 <= i < |tags| ==> !IsHealthTag(tags[i])
  }

  predicate NoDuplicates(tags: seq<string>) {
    forall i, j :: 0 <= i < j < |tags| ==> tags[i] != tags[j]
  }

  /** `a` is `b` with some elements dropped and the rest kept in order. */
  predicate IsSubsequence(a: seq<string>, b: seq<string>)
    decreases |b|
  {
    if a == [] then true
    else if b == [] then false
    else if a[0] == b[0] then IsSubsequence(a[1..], b[1..])
    else IsSubsequence(a, b[1..])
  }

  // ---------------------------------------------------------------------
  // The health tag for a failure

  /**
   * The tag a failing link gets. The separate "DNS" and "other" branches of
   * the source give the same string as the general rule, so every failure
   * kind gets the prefix followed by its error type.
   */
  function HealthTagFor(errorType: string): (tag: string)
    ensures IsHealthTag(tag)
    ensures tag == HEALTH_PREFIX + errorType
  {
    if errorType == "DNS" then "@HEALTH_DNS"
    else if errorType == "other" then "@HEALTH_other"
    else HEALTH_PREFIX + errorType
  }

  /** Different failures get different tags. */
  lemma HealthTagForInjective(a: string, b: string)
    requires HealthTagFor(a) == HealthTagFor(b)
    ensures a == b
  {
    assert a == HealthTagFor(a)[|HEALTH_PREFIX|..];
  }

  /** The tag of a failing probe names its outcome: a different outcome never gets the same tag. */
  lemma HealthTagIdentifiesOutcome(p: ProbeResult, q: ProbeResult)
    requires !CheckURLValidity(p).valid && !CheckURLValidity(q).valid
    requires HealthTagFor(CheckURLValidity(p).errorType) == HealthTagFor(CheckURLValidity(q).errorType)
    ensures OutcomeOf(p) == OutcomeOf(q)
  {
    HealthTagForInjective(CheckURLValidity(p).errorType, CheckURLValidity(q).errorType);
    SameValidityIffSameOutcome(p, q);
  }

  // ---------------------------------------------------------------------
  // Recovery: drop every health tag

  /** The tags that are not health tags, in their original order. */
  function WithoutHealthTags(tags: seq<string>): (r: seq<string>)
    ensures |r| <= |tags|
    ensures NoHealthTags(r)
    ensures forall t :: t in r ==> t in tags
  {
    if tags == [] then []
    else (if IsHealthTag(tags[0]) then [] else [tags[0]]) + WithoutHealthTags(tags[1..])
  }

  lemma {:induction false} WithoutHealthTagsAppend(a: seq<string>, b: seq<string>)
    ensures WithoutHealthTags(a + b) == WithoutHealthTags(a) + WithoutHealthTags(b)
  {
    if a != [] {
      assert (a + b)[0] == a[0] && (a + b)[1..] == a[1..] + b;
      WithoutHealthTagsAppend(a[1..], b);
      var head := if IsHealthTag(a[0]) then [] else [a[0]];
      assert WithoutHealthTags(a + b) == head + (WithoutHealthTags(a[1..]) + WithoutHealthTags(b));
    } else {
      assert a + b == b;
    }
  }

  /** Nothing is removed from a list without health tags. */
  lemma {:induction false} WithoutHealthTagsKeepsClean(tags: seq<string>)
    requires NoHealthTags(tags)
    ensures WithoutHealthTags(tags) == tags
  {
    if tags != [] {
      WithoutHealthTagsKeepsClean(tags[1..]);
    }
  }

  /** Filtering twice is filtering once. */
  lemma WithoutHealthTagsIdempotent(tags: seq<string>)
    ensures WithoutHealthTags(WithoutHealthTags(tags)) == WithoutHealthTags(tags)
  {
    WithoutHealthTagsKeepsClean(WithoutHealthTags(tags));
  }

  /** The length is unchanged exactly when there was no health tag to remove. */
  lemma {:induction false} WithoutHealthTagsLength(tags: seq<string>)
    ensures |WithoutHealthTags(tags)| == |tags| <==> NoHealthTags(tags)
  {
    if tags != [] {
      WithoutHealthTagsLength(tags[1..]);
      if !IsHealthTag(tags[0]) && !NoHealthTags(tags) {
        var i :| 0 <= i < |tags| && IsHealthTag(tags[i]);
        assert IsHealthTag(tags[1..][i - 1]);
      }
    }
  }

  /** The kept tags stand in their original relative order. */
  lemma {:induction false} WithoutHealthTagsIsSubsequence(tags: seq<string>)
    ensures IsSubsequence(WithoutHealthTags(tags), tags)
  {
    if tags != [] {
      WithoutHealthTagsIsSubsequence(tags[1..]);
      var rest := WithoutHealthTags(tags[1..]);
      if IsHealthTag(tags[0]) {
        assert WithoutHealthTags(tags) == rest;
        if rest != [] {
          assert rest[0] != tags[0] by { assert !IsHealthTag(rest[0]); }
        }
      } else {
        assert WithoutHealthTags(tags) == [tags[0]] + rest;
        assert ([tags[0]] + rest)[1..] == rest;
      }
    }
  }

  /** Every non-health tag is kept as often as it occurred; no health tag is kept. */
  lemma {:induction false} WithoutHealthTagsCounts(tags: seq<string>, t: string)
    ensures multiset(WithoutHealthTags(tags))[t] == if IsHealthTag(t) then 0 else multiset(tags)[t]
  {
    if tags != [] {
      WithoutHealthTagsCounts(tags[1..], t);
      assert tags == [tags[0]] + tags[1..];
    }
  }

  lemma {:induction false} WithoutHealthTagsKeepsDistinct(tags: seq<string>)
    requires NoDuplicates(tags)
    ensures NoDuplicates(WithoutHealthTags(tags))
  {
    if tags != [] {
      WithoutHealthTagsKeepsDistinct(tags[1..]);
      assert tags[0] !in tags[1..];
    }
  }

  /** What the recovery branch of `Reconcile` relies on about the filter. */
  lemma RecoveryFilterFacts(tags: seq<string>)
    ensures WithoutHealthTags(WithoutHealthTags(tags)) == WithoutHealthTags(tags)
    ensures IsSubsequence(WithoutHealthTags(tags), tags)
    ensures |WithoutHealthTags(tags)| == |tags| <==> NoHealthTags(tags)
    ensures NoHealthTags(tags) ==> WithoutHealthTags(tags) == tags
  {
    WithoutHealthTagsIdempotent(tags);
    WithoutHealthTagsLength(tags);
    WithoutHealthTagsIsSubsequence(tags);
    if NoHealthTags(tags) {
      WithoutHealthTagsKeepsClean(tags);
    }
  }

  /** The recovery loop: copies every tag without the health prefix. */
  method RemoveHealthTags(tags: seq<string>) returns (updatedTags: seq<string>)
    ensures updatedTags == WithoutHealthTags(tags)
  {
    updatedTags := [];
    var i := 0;
    while i < |tags|
      invariant 0 <= i <= |tags|
      invariant updatedTags == WithoutHealthTags(tags[..i])
    {
      var t := tags[i];
      assert tags[..i + 1] == tags[..i] + [t];
      WithoutHealthTagsAppend(tags[..i], [t]);
      if !IsHealthTag(t) {
        updatedTags := updatedTags + [t];
      }
      i := i + 1;
    }
    assert tags[..i] == tags;
  }

  // ---------------------------------------------------------------------
  // Failure: add the health tag unless present

  /** `tags` with `tag` appended when it is not already there. */
  function WithTag(tags: seq<string>, tag: string): (r: seq<string>)
    ensures tags <= r && tag in r
    ensures r == tags <==> tag in tags
    ensures multiset(r)[tag] == if tag in tags then multiset(tags)[tag] else 1
    ensures forall t :: t != tag ==> multiset(r)[t] == multiset(tags)[t]
  {
    if tag in tags then tags else tags + [tag]
  }

  /** Adding a tag a second time changes nothing. */
  lemma WithTagIdempotent(tags: seq<string>, tag: string)
    ensures WithTag(WithTag(tags, tag), tag) == WithTag(tags, tag)
  {
  }

  lemma WithTagKeepsDistinct(tags: seq<string>, tag: string)
    requires NoDuplicates(tags)
    ensures NoDuplicates(WithTag(tags, tag))
  {
  }

  /** The failure loop: scans for the tag, stopping at the first match, and appends it if absent. */
  method AddTagIfAbsent(tags: seq<string>, tag: string) returns (newTags: seq<string>)
    ensures newTags == WithTag(tags, tag)
  {
    var tagExists := false;
    var i := 0;
    while i < |tags|
      invariant 0 <= i <= |tags|
      invariant !tagExists
      invariant tag !in tags[..i]
    {
      if tags[i] == tag {
        tagExists := true;
        break;
      }
      i := i + 1;
    }
    assert tagExists ==> tags[i] == tag;
    assert !tagExists ==> tags[..i] == tags;
    newTags := tags;
    if !tagExists {
      newTags := newTags + [tag];
    }
  }

  // ---------------------------------------------------------------------
  // One bookmark

  /** The tags to write back for one bookmark and whether a patch is sent. */
  datatype Decision = Decision(newTags: seq<string>, patch: bool)

  /**
   * One step of the reconciliation loop. A valid link loses all its health
   * tags and is patched only if it had any. A failing link keeps every tag
   * it had, older health tags included, gains the tag of its failure if
   * missing, and is patched in every case.
   */
  function Reconcile(tags: seq<string>, v: Validity): (d: Decision)
    ensures WithoutHealthTags(d.newTags) == WithoutHealthTags(tags)
    ensures v.valid ==> NoHealthTags(d.newTags) && IsSubsequence(d.newTags, tags)
    ensures v.valid ==> (d.patch <==> !NoHealthTags(tags)) && (d.patch <==> d.newTags != tags)
    ensures !v.valid ==> d.patch && tags <= d.newTags && HealthTagFor(v.errorType) in d.newTags
    ensures !v.valid ==> (d.newTags == tags <==> HealthTagFor(v.errorType) in tags)
    ensures !v.valid && HealthTagFor(v.errorType) !in tags ==> d.newTags == tags + [HealthTagFor(v.errorType)]
  {
    if v.valid then
      var updatedTags := WithoutHealthTags(tags);
      RecoveryFilterFacts(tags);
      Decision(updatedTags, |updatedTags| != |tags|)
    else
      var tag := HealthTagFor(v.errorType);
      WithoutHealthTagsAppend(tags, [tag]);
      Decision(WithTag(tags, tag), true)
  }

  /**
   * Reapplying the same classification leaves the tags as they are; a
   * failing link is still patched again (with the same tags), a valid one
   * is not.
   */
  lemma ReconcileIdempotent(tags: seq<string>, v: Validity)
    ensures var d := Reconcile(tags, v);
      Reconcile(d.newTags, v) == Decision(d.newTags, !v.valid)
  {
  }

  /** A list without duplicate tags never gets one. */
  lemma ReconcileKeepsDistinct(tags: seq<string>, v: Validity)
    requires NoDuplicates(tags)
    ensures NoDuplicates(Reconcile(tags, v).newTags)
  {
    if v.valid {
      WithoutHealthTagsKeepsDistinct(tags);
    }
  }

  /** A first failure tags the link with its status. */
  lemma FirstFailureExample()
    ensures Reconcile([], CheckURLValidity(Response(404))) == Decision(["@HEALTH_HTTP_404"], true)
  {
    assert NatToDecimal(404) == "404" by {
      assert NatToDecimal(4) == "4";
      assert NatToDecimal(40) == "40";
    }
    var v := CheckURLValidity(Response(404));
    assert v == Validity(false, "HTTP_404");
    assert HealthTagFor(v.errorType) == "@HEALTH_HTTP_404";
    assert "@HEALTH_HTTP_404" !in [];
    assert WithTag([], "@HEALTH_HTTP_404") == ["@HEALTH_HTTP_404"];
  }

  /** A recovery clears the health tags and keeps the others. */
  lemma RecoveryExample()
    ensures Reconcile(["work", "@HEALTH_DNS"], CheckURLValidity(Response(200))) == Decision(["work"], true)
  {
    assert IsHealthTag("@HEALTH_DNS");
    assert !IsHealthTag("work");
  }

  /** A repeated failure keeps the tags as they are, yet still sends a patch. */
  lemma RepeatedFailureExample()
    ensures Reconcile(["@HEALTH_HTTP_500"], CheckURLValidity(Response(500))) == Decision(["@HEALTH_HTTP_500"], true)
  {
    assert NatToDecimal(500) == "500" by {
      assert NatToDecimal(5) == "5";
      assert NatToDecimal(50) == "50";
    }
    var v := CheckURLValidity(Response(500));
    assert v == Validity(false, "HTTP_500");
    assert HealthTagFor(v.errorType) == "@HEALTH_HTTP_500";
    assert "@HEALTH_HTTP_500" in ["@HEALTH_HTTP_500"];
  }

  /** A change of failure adds the new tag beside the old one. */
  lemma ChangedFailureExample()
    ensures Reconcile(["@HEALTH_HTTP_500"], CheckURLValidity(RequestError(true)))
         == Decision(["@HEALTH_HTTP_500", "@HEALTH_DNS"], true)
  {
  }
}

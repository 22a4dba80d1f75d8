/** The gateway's readiness report: whether every upstream schema was
    introspected and the composed schema is usable, and if not, why. */
module GatewayReadiness {
  import opened Strings
  import opened SchemaTypes
  import opened Introspection

  /** What the readiness check observed: how many upstreams were configured,
      how many schemas were obtained, which introspections failed, and whether
      the composed GraphQL schema is available. */
  datatype GatewayReadiness = GatewayReadiness(
    expectedUpstreams: int,
    schemasAvailable: int,
    introspectionFailures: seq<IntrospectionFailure>,
    graphQLAvailable: bool)

  /** `isReady`: no failure, every expected schema present, GraphQL available. */
  predicate IsReady(g: GatewayReadiness)
  {
    |g.introspectionFailures| == 0 && g.schemasAvailable == g.expectedUpstreams && g.graphQLAvailable
  }

  /** The reason reported for one failed introspection. */
  function FailureReason(failure: IntrospectionFailure): (r: string)
    ensures StartsWith(r, "Introspection failed for upstream '" + failure.service.name + "': ")
  {
    var prefix := "Introspection failed for upstream '" + failure.service.name + "': ";
    assert (prefix + failure.reason)[..|prefix|] == prefix;
    prefix + failure.reason
  }

  /** The reason reported when `missing` schemas are absent. */
  function MissingReason(missing: nat): string
  {
    NatToString(missing) + " upstream schema(s) missing from readiness check"
  }

  const CompositionUnavailable := "Gateway schema composition unavailable"

  /** The reasons, one per failure in order. */
  function FailureReasons(failures: seq<IntrospectionFailure>): (r: seq<string>)
    ensures |r| == |failures|
    ensures forall i :: 0 <= i < |failures| ==> r[i] == FailureReason(failures[i])
  {
    if |failures| == 0 then []
    else FailureReasons(failures[..|failures| - 1]) + [FailureReason(failures[|failures| - 1])]
  }

  /** The reason list of a report that is not ready: the failures' reasons,
      then the count of missing schemas if some are missing, then the
      unavailable composition if it is. A surplus of schemas adds nothing. */
  function ReasonList(g: GatewayReadiness): seq<string>
  {
    if IsReady(g) then []
    else
      var missing := g.expectedUpstreams - g.schemasAvailable;
      FailureReasons(g.introspectionFailures)
        + (if g.schemasAvailable != g.expectedUpstreams && missing > 0 then [MissingReason(missing)] else [])
        + (if !g.graphQLAvailable then [CompositionUnavailable] else [])
  }

  /** `reasons()`: collects the reasons into a list, failure by failure and
      then the two conditional ones. */
  method Reasons(g: GatewayReadiness) returns (reasons: seq<string>)
    ensures reasons == ReasonList(g)
  {
    if IsReady(g) {
      return [];
    }
    reasons := [];
    for i := 0 to |g.introspectionFailures|
      invariant reasons == FailureReasons(g.introspectionFailures[..i])
    {
      assert g.introspectionFailures[..i + 1][..i] == g.introspectionFailures[..i];
      reasons := reasons + [FailureReason(g.introspectionFailures[i])];
    }
    assert g.introspectionFailures[..|g.introspectionFailures|] == g.introspectionFailures;
    if g.schemasAvailable != g.expectedUpstreams {
      var missing := g.expectedUpstreams - g.schemasAvailable;
      if missing > 0 {
        reasons := reasons + [MissingReason(missing)];
      }
    }
    if !g.graphQLAvailable {
      reasons := reasons + [CompositionUnavailable];
    }
  }

  /** When not ready, the list opens with one reason per failure, in failure
      order, each naming the failed upstream. */
  lemma FailuresReportedInOrder(g: GatewayReadiness)
    requires !IsReady(g)
    ensures |ReasonList(g)| >= |g.introspectionFailures|
    ensures forall i :: 0 <= i < |g.introspectionFailures| ==>
      ReasonList(g)[i] == FailureReason(g.introspectionFailures[i])
      && StartsWith(ReasonList(g)[i], "Introspection failed for upstream '" + g.introspectionFailures[i].service.name + "': ")
  {
  }

  /** A missing-schemas reason is present exactly when the report is not
      ready and fewer schemas were obtained than expected, and then it
      carries the shortfall. */
  lemma MissingReasonIff(g: GatewayReadiness, k: nat)
    ensures MissingReason(k) in ReasonList(g)
      <==> !IsReady(g) && 0 < k && k == g.expectedUpstreams - g.schemasAvailable
  {
    var r := ReasonList(g);
    if MissingReason(k) in r {
      var fs := FailureReasons(g.introspectionFailures);
      NotCompositionReason(k);
      forall i | 0 <= i < |fs| ensures fs[i] != MissingReason(k) {
        FailureNotMissing(g.introspectionFailures[i], k);
      }
      var missing := g.expectedUpstreams - g.schemasAvailable;
      assert r == fs + [MissingReason(missing)] + (if !g.graphQLAvailable then [CompositionUnavailable] else []);
      assert MissingReason(k) == MissingReason(missing);
      MissingReasonInjective(k, missing);
    }
  }

  /** Different shortfalls give different reasons. */
  lemma MissingReasonInjective(k: nat, m: nat)
    requires MissingReason(k) == MissingReason(m)
    ensures k == m
  {
    var suffix := " upstream schema(s) missing from readiness check";
    assert NatToString(k) == MissingReason(k)[..|MissingReason(k)| - |suffix|];
    assert NatToString(m) == MissingReason(m)[..|MissingReason(m)| - |suffix|];
    NatToStringRoundTrip(k);
    NatToStringRoundTrip(m);
  }

  /** The composition reason is reported exactly when GraphQL is unavailable
      (which already makes the report not ready), and then it comes last. */
  lemma CompositionReasonLast(g: GatewayReadiness)
    ensures !g.graphQLAvailable <==> |ReasonList(g)| > 0 && ReasonList(g)[|ReasonList(g)| - 1] == CompositionUnavailable
  {
    var r := ReasonList(g);
    if g.graphQLAvailable && |r| > 0 {
      var missing := g.expectedUpstreams - g.schemasAvailable;
      var fs := FailureReasons(g.introspectionFailures);
      if g.schemasAvailable != g.expectedUpstreams && missing > 0 {
        NotCompositionReason(missing);
        assert r[|r| - 1] == MissingReason(missing);
      } else {
        assert r == fs;
        FailureNotMissing(g.introspectionFailures[|r| - 1], 0);
      }
    }
  }

  /** The reason list is empty exactly when the report is ready, or when the
      only fault is a surplus of schemas: a not-ready report can then give no
      reason at all. */
  lemma NoReasonsIff(g: GatewayReadiness)
    ensures ReasonList(g) == [] <==>
      IsReady(g)
      || (|g.introspectionFailures| == 0 && g.graphQLAvailable && g.schemasAvailable > g.expectedUpstreams)
  {
    if ReasonList(g) == [] && !IsReady(g) {
      assert |FailureReasons(g.introspectionFailures)| == 0;
    }
  }

  /** The count-of-missing reason differs from the composition reason. */
  lemma NotCompositionReason(missing: nat)
    ensures MissingReason(missing) != CompositionUnavailable
  {
    var d := NatToString(missing);
    assert MissingReason(missing)[0] == d[0];
    assert CompositionUnavailable[0] == 'G';
  }

  /** A failure's reason differs from every other kind of reason. */
  lemma FailureNotMissing(failure: IntrospectionFailure, missing: nat)
    ensures FailureReason(failure) != MissingReason(missing)
    ensures FailureReason(failure) != CompositionUnavailable
  {
    var d := NatToString(missing);
    assert FailureReason(failure)[0] == 'I';
    assert MissingReason(missing)[0] == d[0];
    assert CompositionUnavailable[0] == 'G';
  }
}

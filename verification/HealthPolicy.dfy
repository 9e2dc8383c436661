/** The consumer-side health policy over the providers' self-reports. */
module HealthPolicy {
  import opened ByteStrings

  datatype HealthClass = Unknown | Healthy | Degraded | Blocked | Unreachable

  datatype Policy = Permissive | Preferred | Strict | OtherPolicy(name: Bytes)

  datatype Report = Report(modelId: Bytes, status: Bytes)

  function ClassOf(status: Bytes): HealthClass
  {
    if status == Ascii("healthy") then Healthy
    else if status == Ascii("degraded") then Degraded
    else if status in {Ascii("unhealthy"), Ascii("tee_unverified"), Ascii("no_model_configured")} then Blocked
    else Unknown
  }

  /** The class of the first report for the model, unknown without one. */
  function Classify(reports: seq<Report>, modelId: Bytes): HealthClass
  {
    if reports == [] then Unknown
    else if EqualFold(reports[0].modelId, modelId) then ClassOf(reports[0].status)
    else Classify(reports[1..], modelId)
  }

  method ClassifyModelHealth(reports: seq<Report>, modelId: Bytes) returns (c: HealthClass)
    ensures c == Classify(reports, modelId)
  {
    var i := 0;
    while i < |reports|
      invariant 0 <= i <= |reports|
      invariant Classify(reports, modelId) == Classify(reports[i..], modelId)
    {
      if EqualFold(reports[i].modelId, modelId) {
        return ClassOf(reports[i].status);
      }
      assert reports[i..][1..] == reports[i + 1..];
      i := i + 1;
    }
    c := Unknown;
  }

  predicate Serviceable(c: HealthClass) { c == Healthy || c == Degraded }

  predicate AnyServiceable(classes: seq<HealthClass>)
  {
    exists i :: 0 <= i < |classes| && Serviceable(classes[i])
  }

  /** Whether the policy lets a candidate of class c through. */
  predicate Kept(policy: Policy, anyServiceable: bool, c: HealthClass)
  {
    match policy
    case Strict => c == Healthy
    case Preferred => if anyServiceable then Serviceable(c) else c == Unknown
    case _ => c != Blocked && c != Unreachable
  }

  method ApplyHealthPolicy(policy: Policy, classes: seq<HealthClass>)
    returns (keep: seq<bool>, permissiveFallback: bool)
    ensures |keep| == |classes|
    ensures forall i :: 0 <= i < |classes| ==> keep[i] == Kept(policy, AnyServiceable(classes), classes[i])
    ensures permissiveFallback <==> policy == Preferred && !AnyServiceable(classes)
  {
    var anyServiceable := false;
    var i := 0;
    while i < |classes|
      invariant 0 <= i <= |classes| && !anyServiceable
      invariant forall j :: 0 <= j < i ==> !Serviceable(classes[j])
    {
      if classes[i] == Healthy || classes[i] == Degraded {
        anyServiceable := true;
        break;
      }
      i := i + 1;
    }
    assert anyServiceable == AnyServiceable(classes);
    keep := [];
    i := 0;
    while i < |classes|
      invariant 0 <= i <= |classes| && |keep| == i
      invariant forall j :: 0 <= j < i ==> keep[j] == Kept(policy, anyServiceable, classes[j])
    {
      var c := classes[i];
      match policy {
        case Strict => keep := keep + [c == Healthy];
        case Preferred =>
          if anyServiceable {
            keep := keep + [c == Healthy || c == Degraded];
          } else {
            keep := keep + [c == Unknown];
          }
        case _ => keep := keep + [c != Blocked && c != Unreachable];
      }
      i := i + 1;
    }
    permissiveFallback := policy == Preferred && !anyServiceable;
  }

  function KeptSet(policy: Policy, classes: seq<HealthClass>): set<int>
  {
    set i | 0 <= i < |classes| && Kept(policy, AnyServiceable(classes), classes[i])
  }

  /** Strict keeps a subset of preferred, preferred one of permissive, and preferred leaves nothing to try
      only when permissive would not either: it never black-holes a model. */
  lemma PolicyLattice(classes: seq<HealthClass>)
    ensures KeptSet(Strict, classes) <= KeptSet(Preferred, classes) <= KeptSet(Permissive, classes)
    ensures KeptSet(Preferred, classes) == {} <==> KeptSet(Permissive, classes) == {}
    ensures KeptSet(Strict, classes) == {} <==> forall i :: 0 <= i < |classes| ==> classes[i] != Healthy
  {
    if AnyServiceable(classes) {
      var i :| 0 <= i < |classes| && Serviceable(classes[i]);
      assert i in KeptSet(Preferred, classes);
    }
    if KeptSet(Preferred, classes) == {} {
      forall i | 0 <= i < |classes| ensures i !in KeptSet(Permissive, classes) {
        assert i !in KeptSet(Preferred, classes);
      }
    }
    if KeptSet(Strict, classes) == {} {
      forall i | 0 <= i < |classes| ensures classes[i] != Healthy {
        assert i !in KeptSet(Strict, classes);
      }
    }
  }
}

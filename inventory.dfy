/**
 * The EC2 inventory of ec2_private.py: three functions each make one
 * describe-instances call and walk its response, reservation by reservation
 * and instance by instance, collecting the private addresses, the public
 * addresses, or the ids of the instances whose metadata hop limit is 1.
 * Any exception, from the call or from a key missing partway through the
 * walk, replaces the whole result with the empty list.
 *
 * The session, the client and the call are one parameter: the outcome of the
 * call, a response or a failure. A response is the part of the describe-instances
 * dictionary the walk reads; a key the dictionary may lack is an Option.
 */
module Inventory {
  import opened Wrappers

  datatype MetadataOptions = MetadataOptions(hopLimit: Option<int>)   // `HttpPutResponseHopLimit`

  datatype Instance = Instance(
    instanceId: Option<string>,          // `InstanceId`
    privateIp: Option<string>,           // `PrivateIpAddress`
    publicIp: Option<string>,            // `PublicIpAddress`
    metadata: Option<MetadataOptions>)   // `MetadataOptions`

  datatype Reservation = Reservation(instances: Option<seq<Instance>>)   // `Instances`

  datatype Response = Response(reservations: Option<seq<Reservation>>)   // `Reservations`

  /** `ec2.describe_instances()` after the session and client were made, or the exception one of them raised. */
  datatype DescribeOutcome = Described(response: Response) | Failed

  /** The two address keys collected by the same rule. */
  datatype AddressField = PrivateIpAddress | PublicIpAddress

  function Field(inst: Instance, field: AddressField): Option<string>
  {
    match field
    case PrivateIpAddress => inst.privateIp
    case PublicIpAddress => inst.publicIp
  }

  /** Both parts present, concatenated; otherwise the failure of either. */
  function Join<T>(a: Option<seq<T>>, b: Option<seq<T>>): (r: Option<seq<T>>)
    ensures r.Some? <==> a.Some? && b.Some?
    ensures r.Some? ==> r.value == a.value + b.value
  {
    if a.Some? && b.Some? then Some(a.value + b.value) else None
  }

  lemma JoinAssociative<T>(a: Option<seq<T>>, b: Option<seq<T>>, c: Option<seq<T>>)
    ensures Join(Join(a, b), c) == Join(a, Join(b, c))
  {
    if a.Some? && b.Some? && c.Some? {
      assert (a.value + b.value) + c.value == a.value + (b.value + c.value);
    }
  }

  // ---------------------------------------------------------------- the walk

  /** The instances of the reservations in walk order, or None when a reservation has no `Instances` key. */
  function Instances(rs: seq<Reservation>): (r: Option<seq<Instance>>)
    ensures r.Some? ==> |r.value| == TotalInstances(rs)
  {
    if rs == [] then Some([])
    else Join(Instances(rs[..|rs| - 1]), rs[|rs| - 1].instances)
  }

  /** The number of instances listed by the reservations that list any. */
  function TotalInstances(rs: seq<Reservation>): nat
  {
    if rs == [] then 0
    else
      var last := rs[|rs| - 1].instances;
      TotalInstances(rs[..|rs| - 1]) + (if last.Some? then |last.value| else 0)
  }

  lemma {:induction false} InstancesAppend(rs: seq<Reservation>, more: seq<Reservation>)
    ensures Instances(rs + more) == Join(Instances(rs), Instances(more))
    decreases |more|
  {
    if more == [] {
      assert rs + more == rs;
      assert Instances(rs).Some? ==> Instances(rs).value + [] == Instances(rs).value;
    } else {
      var init := more[..|more| - 1];
      assert (rs + more)[..|rs + more| - 1] == rs + init;
      InstancesAppend(rs, init);
      JoinAssociative(Instances(rs), Instances(init), more[|more| - 1].instances);
    }
  }

  /** The walk fails exactly when some reservation lacks `Instances`. */
  lemma {:induction false} InstancesFail(rs: seq<Reservation>)
    ensures Instances(rs).None? <==> exists i :: 0 <= i < |rs| && rs[i].instances.None?
  {
    if rs != [] {
      var init := rs[..|rs| - 1];
      InstancesFail(init);
      if Instances(init).None? {
        var i :| 0 <= i < |init| && init[i].instances.None?;
        assert rs[i] == init[i];
      }
      if exists i :: 0 <= i < |rs| && rs[i].instances.None? {
        var i :| 0 <= i < |rs| && rs[i].instances.None?;
        if i < |rs| - 1 {
          assert init[i] == rs[i];
        }
      }
    }
  }

  /**
   * Instance j of reservation i comes after all instances of the reservations
   * before i and after instances 0..j-1 of reservation i.
   */
  lemma InstancesAt(rs: seq<Reservation>, i: nat, j: nat)
    requires Instances(rs).Some? && i < |rs|
    ensures rs[i].instances.Some? && Instances(rs[..i]).Some?
    ensures j < |rs[i].instances.value| ==>
              && TotalInstances(rs[..i]) + j < |Instances(rs).value|
              && Instances(rs).value[TotalInstances(rs[..i]) + j] == rs[i].instances.value[j]
  {
    assert rs == rs[..i] + [rs[i]] + rs[i + 1..];
    InstancesAppend(rs[..i] + [rs[i]], rs[i + 1..]);
    InstancesAppend(rs[..i], [rs[i]]);
    assert [rs[i]][..0] == [];
  }

  // ---------------------------------------------------------------- addresses

  /** The address of every instance that has one, in order; instances without the key are skipped. */
  function Addresses(insts: seq<Instance>, field: AddressField): (r: seq<string>)
    ensures |r| <= |insts|
  {
    if insts == [] then []
    else
      var last := Field(insts[|insts| - 1], field);
      Addresses(insts[..|insts| - 1], field) + (if last.Some? then [last.value] else [])
  }

  /** Collecting is a homomorphism: the addresses of a concatenation are the concatenated addresses. */
  lemma {:induction false} AddressesAppend(xs: seq<Instance>, ys: seq<Instance>, field: AddressField)
    ensures Addresses(xs + ys, field) == Addresses(xs, field) + Addresses(ys, field)
    decreases |ys|
  {
    if ys == [] {
      assert xs + ys == xs;
    } else {
      var init := ys[..|ys| - 1];
      assert (xs + ys)[..|xs + ys| - 1] == xs + init;
      AddressesAppend(xs, init, field);
    }
  }

  /** An address is collected exactly when some instance carries it. */
  lemma {:induction false} AddressesMembership(insts: seq<Instance>, field: AddressField, a: string)
    ensures a in Addresses(insts, field) <==> exists k :: 0 <= k < |insts| && Field(insts[k], field) == Some(a)
  {
    if insts != [] {
      var init := insts[..|insts| - 1];
      AddressesMembership(init, field, a);
      if exists k :: 0 <= k < |init| && Field(init[k], field) == Some(a) {
        var k :| 0 <= k < |init| && Field(init[k], field) == Some(a);
        assert insts[k] == init[k];
      }
      if exists k :: 0 <= k < |insts| && Field(insts[k], field) == Some(a) {
        var k :| 0 <= k < |insts| && Field(insts[k], field) == Some(a);
        if k < |insts| - 1 {
          assert init[k] == insts[k];
        }
      }
    }
  }

  /** Exactly one address per instance when every instance has the key. */
  lemma {:induction false} AddressesAllPresent(insts: seq<Instance>, field: AddressField)
    requires forall k :: 0 <= k < |insts| ==> Field(insts[k], field).Some?
    ensures |Addresses(insts, field)| == |insts|
  {
    if insts != [] {
      AddressesAllPresent(insts[..|insts| - 1], field);
    }
  }

  /** The number of instances a response lists; 0 when there is no response or no `Reservations`. */
  function ListedInstances(call: DescribeOutcome): nat
  {
    if call.Described? && call.response.reservations.Some? then TotalInstances(call.response.reservations.value) else 0
  }

  /** `get_ec2_private_ips` / `get_ec2_public_ips` as a value: any failure replaces the list with []. */
  function AddressesResult(call: DescribeOutcome, field: AddressField): (r: seq<string>)
    ensures |r| <= ListedInstances(call)
    ensures ListedInstances(call) == 0 ==> r == []
  {
    match call
    case Failed => []
    case Described(response) =>
      match response.reservations
      case None => []
      case Some(rs) =>
        match Instances(rs)
        case None => []
        case Some(insts) => Addresses(insts, field)
    }

  /**
   * The lines 39-45 and 70-76 loops: walk the reservations and their
   * instances, appending the address of each instance that has one.
   */
  method CollectAddresses(call: DescribeOutcome, field: AddressField) returns (ips: seq<string>)
    ensures ips == AddressesResult(call, field)
  {
    if call.Failed? {
      return [];
    }
    var response := call.response;
    if response.reservations.None? {
      return [];
    }
    var rs := response.reservations.value;
    ips := [];
    var i := 0;
    while i < |rs|
      invariant 0 <= i <= |rs|
      invariant Instances(rs[..i]).Some? && ips == Addresses(Instances(rs[..i]).value, field)
    {
      if rs[i].instances.None? {
        InstancesFail(rs);
        return [];
      }
      var insts := rs[i].instances.value;
      ghost var done := Instances(rs[..i]).value;
      var j := 0;
      assert done + insts[..j] == done;
      while j < |insts|
        invariant 0 <= j <= |insts|
        invariant ips == Addresses(done + insts[..j], field)
      {
        var a := Field(insts[j], field);
        assert (done + insts[..j + 1])[..|done| + j] == done + insts[..j];
        if a.Some? {
          ips := ips + [a.value];
        }
        j := j + 1;
      }
      assert insts[..j] == insts;
      assert rs[..i + 1][..i] == rs[..i];
      i := i + 1;
    }
    assert rs[..i] == rs;
  }

  /** `get_ec2_private_ips`. */
  method GetEc2PrivateIps(call: DescribeOutcome) returns (ips: seq<string>)
    ensures ips == AddressesResult(call, PrivateIpAddress)
  {
    ips := CollectAddresses(call, PrivateIpAddress);
  }

  /** `get_ec2_public_ips`. */
  method GetEc2PublicIps(call: DescribeOutcome) returns (ips: seq<string>)
    ensures ips == AddressesResult(call, PublicIpAddress)
  {
    ips := CollectAddresses(call, PublicIpAddress);
  }

  /**
   * What the address lists contain: an address is in the result exactly when
   * the walk completes and some instance of some reservation carries it.
   */
  lemma AddressesResultMembership(call: DescribeOutcome, field: AddressField, a: string)
    ensures a in AddressesResult(call, field) <==>
              && call.Described? && call.response.reservations.Some?
              && Instances(call.response.reservations.value).Some?
              && exists i, j :: 0 <= i < |call.response.reservations.value| &&
                                call.response.reservations.value[i].instances.Some? &&
                                var insts := call.response.reservations.value[i].instances.value;
                                0 <= j < |insts| && Field(insts[j], field) == Some(a)
  {
    if call.Described? && call.response.reservations.Some? && Instances(call.response.reservations.value).Some? {
      var rs := call.response.reservations.value;
      var flat := Instances(rs).value;
      AddressesMembership(flat, field, a);
      if a in AddressesResult(call, field) {
        var k :| 0 <= k < |flat| && Field(flat[k], field) == Some(a);
        var i, j := Locate(rs, k);
        InstancesAt(rs, i, j);
      }
      if exists i, j :: 0 <= i < |rs| && rs[i].instances.Some? && var insts := rs[i].instances.value;
                        0 <= j < |insts| && Field(insts[j], field) == Some(a) {
        var i, j :| 0 <= i < |rs| && rs[i].instances.Some? && var insts := rs[i].instances.value;
                    0 <= j < |insts| && Field(insts[j], field) == Some(a);
        InstancesAt(rs, i, j);
      }
    }
  }

  /** Position k of a complete walk is instance j of reservation i. */
  lemma {:induction false} Locate(rs: seq<Reservation>, k: nat) returns (i: nat, j: nat)
    requires Instances(rs).Some? && k < |Instances(rs).value|
    ensures i < |rs| && rs[i].instances.Some? && j < |rs[i].instances.value|
    ensures Instances(rs).value[k] == rs[i].instances.value[j]
  {
    var init := rs[..|rs| - 1];
    var done := Instances(init).value;
    if k < |done| {
      i, j := Locate(init, k);
      assert rs[i] == init[i];
    } else {
      i, j := |rs| - 1, k - |done|;
    }
  }

  /** A failure anywhere gives [], never the addresses collected before it. */
  lemma AddressesResultFails(call: DescribeOutcome, field: AddressField)
    ensures call.Failed? ==> AddressesResult(call, field) == []
    ensures call.Described? && call.response.reservations.None? ==> AddressesResult(call, field) == []
    ensures call.Described? && call.response.reservations.Some? &&
            (exists i :: 0 <= i < |call.response.reservations.value| && call.response.reservations.value[i].instances.None?) ==>
              AddressesResult(call, field) == []
  {
    if call.Described? && call.response.reservations.Some? {
      InstancesFail(call.response.reservations.value);
    }
  }

  // ---------------------------------------------------------------- IMDSv1 candidates

  /** What lines 105-107 do with one instance. */
  datatype Verdict = Excluded | Included(id: string) | KeyMissing

  function Judge(inst: Instance): (v: Verdict)
    ensures v.Included? <==> inst.metadata.Some? && inst.metadata.value.hopLimit == Some(1) && inst.instanceId.Some?
    ensures v.Included? ==> v.id == inst.instanceId.value
    ensures v.KeyMissing? <==>
              inst.metadata.Some? && (inst.metadata.value.hopLimit.None? || (inst.metadata.value.hopLimit == Some(1) && inst.instanceId.None?))
  {
    match inst.metadata
    case None => Excluded
    case Some(options) =>
      match options.hopLimit
      case None => KeyMissing
      case Some(limit) =>
        if limit != 1 then Excluded
        else
          match inst.instanceId
          case None => KeyMissing
          case Some(id) => Included(id)
  }

  /** The ids of the instances whose hop limit is 1, in order; None when a key the walk reads is missing. */
  function Imds(insts: seq<Instance>): (r: Option<seq<string>>)
    ensures r.Some? ==> |r.value| <= |insts|
  {
    if insts == [] then Some([])
    else
      var rest := Imds(insts[..|insts| - 1]);
      match Judge(insts[|insts| - 1])
      case Excluded => rest
      case Included(id) => Join(rest, Some([id]))
      case KeyMissing => None
  }

  lemma {:induction false} ImdsAppend(xs: seq<Instance>, ys: seq<Instance>)
    ensures Imds(xs + ys) == Join(Imds(xs), Imds(ys))
    decreases |ys|
  {
    if ys == [] {
      assert xs + ys == xs;
      assert Imds(xs).Some? ==> Imds(xs).value + [] == Imds(xs).value;
    } else {
      var init := ys[..|ys| - 1];
      assert (xs + ys)[..|xs + ys| - 1] == xs + init;
      ImdsAppend(xs, init);
      match Judge(ys[|ys| - 1])
      case Excluded =>
      case Included(id) => JoinAssociative(Imds(xs), Imds(init), Some([id]));
      case KeyMissing =>
    }
  }

  /** The candidates' walk fails exactly when some instance makes a lookup that raises. */
  lemma {:induction false} ImdsFail(insts: seq<Instance>)
    ensures Imds(insts).None? <==> exists k :: 0 <= k < |insts| && Judge(insts[k]).KeyMissing?
  {
    if insts != [] {
      var init := insts[..|insts| - 1];
      ImdsFail(init);
      if Imds(init).None? {
        var k :| 0 <= k < |init| && Judge(init[k]).KeyMissing?;
        assert insts[k] == init[k];
      }
      if exists k :: 0 <= k < |insts| && Judge(insts[k]).KeyMissing? {
        var k :| 0 <= k < |insts| && Judge(insts[k]).KeyMissing?;
        if k < |insts| - 1 {
          assert init[k] == insts[k];
        }
      }
    }
  }

  /** An id is a candidate exactly when an instance with that id has hop limit 1. */
  lemma {:induction false} ImdsMembership(insts: seq<Instance>, id: string)
    requires Imds(insts).Some?
    ensures id in Imds(insts).value <==> exists k :: 0 <= k < |insts| && Judge(insts[k]) == Included(id)
  {
    if insts != [] {
      var init := insts[..|insts| - 1];
      ImdsMembership(init, id);
      if exists k :: 0 <= k < |init| && Judge(init[k]) == Included(id) {
        var k :| 0 <= k < |init| && Judge(init[k]) == Included(id);
        assert insts[k] == init[k];
      }
      if exists k :: 0 <= k < |insts| && Judge(insts[k]) == Included(id) {
        var k :| 0 <= k < |insts| && Judge(insts[k]) == Included(id);
        if k < |insts| - 1 {
          assert init[k] == insts[k];
        }
      }
    }
  }

  /** `get_ec2_imdsv1_ips` as a value: any failure replaces the list with []. */
  function ImdsResult(call: DescribeOutcome): (r: seq<string>)
    ensures |r| <= ListedInstances(call)
    ensures ListedInstances(call) == 0 ==> r == []
  {
    match call
    case Failed => []
    case Described(response) =>
      match response.reservations
      case None => []
      case Some(rs) =>
        match Instances(rs)
        case None => []
        case Some(insts) =>
          match Imds(insts)
          case None => []
          case Some(ids) => ids
  }

  /**
   * The lines 102-109 loop: walk the reservations and their instances,
   * appending the id of each instance whose hop limit is 1; a missing
   * key raises and the handler returns [].
   */
  method GetEc2Imdsv1Ips(call: DescribeOutcome) returns (ids: seq<string>)
    ensures ids == ImdsResult(call)
  {
    if call.Failed? {
      return [];
    }
    var response := call.response;
    if response.reservations.None? {
      return [];
    }
    var rs := response.reservations.value;
    ids := [];
    var i := 0;
    while i < |rs|
      invariant 0 <= i <= |rs|
      invariant Instances(rs[..i]).Some? && Imds(Instances(rs[..i]).value) == Some(ids)
    {
      if rs[i].instances.None? {
        InstancesFail(rs);
        return [];
      }
      var insts := rs[i].instances.value;
      ghost var done := Instances(rs[..i]).value;
      var j := 0;
      assert done + insts[..j] == done;
      while j < |insts|
        invariant 0 <= j <= |insts|
        invariant Imds(done + insts[..j]) == Some(ids)
      {
        var inst := insts[j];
        assert (done + insts[..j + 1])[..|done| + j] == done + insts[..j];
        if inst.metadata.Some? {
          var limit := inst.metadata.value.hopLimit;
          if limit.None? {
            WalkMeetsMissingKey(rs, i, j);
            return [];
          }
          if limit.value == 1 {
            if inst.instanceId.None? {
              WalkMeetsMissingKey(rs, i, j);
              return [];
            }
            ids := ids + [inst.instanceId.value];
          }
        }
        j := j + 1;
      }
      assert insts[..j] == insts;
      assert rs[..i + 1][..i] == rs[..i];
      i := i + 1;
    }
    assert rs[..i] == rs;
  }

  /** A lookup that raises at instance j of reservation i makes the whole result []. */
  lemma WalkMeetsMissingKey(rs: seq<Reservation>, i: nat, j: nat)
    requires i < |rs| && rs[i].instances.Some? && j < |rs[i].instances.value|
    requires Judge(rs[i].instances.value[j]).KeyMissing?
    ensures ImdsResult(Described(Response(Some(rs)))) == []
  {
    if Instances(rs).Some? {
      var flat := Instances(rs).value;
      InstancesAt(rs, i, j);
      ImdsFail(flat);
    }
  }

  /**
   * What the candidate list contains: an id is in the result exactly when the
   * walk completes and some instance with that id has `MetadataOptions` with
   * hop limit 1. Instances without `MetadataOptions`, or with another limit, are left out.
   */
  lemma ImdsResultMembership(call: DescribeOutcome, id: string)
    ensures id in ImdsResult(call) <==>
              && call.Described? && call.response.reservations.Some?
              && Instances(call.response.reservations.value).Some?
              && Imds(Instances(call.response.reservations.value).value).Some?
              && exists i, j :: 0 <= i < |call.response.reservations.value| &&
                                call.response.reservations.value[i].instances.Some? &&
                                var insts := call.response.reservations.value[i].instances.value;
                                0 <= j < |insts| && insts[j].metadata.Some? &&
                                insts[j].metadata.value.hopLimit == Some(1) && insts[j].instanceId == Some(id)
  {
    if call.Described? && call.response.reservations.Some? && Instances(call.response.reservations.value).Some? {
      var rs := call.response.reservations.value;
      var flat := Instances(rs).value;
      if Imds(flat).Some? {
        ImdsMembership(flat, id);
        if id in ImdsResult(call) {
          var k :| 0 <= k < |flat| && Judge(flat[k]) == Included(id);
          var i, j := Locate(rs, k);
          InstancesAt(rs, i, j);
        }
        if exists i, j :: 0 <= i < |rs| && rs[i].instances.Some? && var insts := rs[i].instances.value;
                          0 <= j < |insts| && insts[j].metadata.Some? &&
                          insts[j].metadata.value.hopLimit == Some(1) && insts[j].instanceId == Some(id) {
          var i, j :| 0 <= i < |rs| && rs[i].instances.Some? && var insts := rs[i].instances.value;
                      0 <= j < |insts| && insts[j].metadata.Some? &&
                      insts[j].metadata.value.hopLimit == Some(1) && insts[j].instanceId == Some(id);
          InstancesAt(rs, i, j);
          assert Judge(flat[TotalInstances(rs[..i]) + j]) == Included(id);
        }
      }
    }
  }

  /** A failure anywhere gives [], never the ids collected before it. */
  lemma ImdsResultFails(call: DescribeOutcome)
    ensures call.Failed? ==> ImdsResult(call) == []
    ensures call.Described? && call.response.reservations.None? ==> ImdsResult(call) == []
    ensures call.Described? && call.response.reservations.Some? &&
            (exists i :: 0 <= i < |call.response.reservations.value| && call.response.reservations.value[i].instances.None?) ==>
              ImdsResult(call) == []
  {
    if call.Described? && call.response.reservations.Some? {
      var rs := call.response.reservations.value;
      InstancesFail(rs);
    }
  }

  // ---------------------------------------------------------------- worked responses

  /** Two reservations: one instance with only a private address, one with both. */
  lemma TwoReservations()
    ensures var call := Described(Response(Some([
              Reservation(Some([Instance(Some("i-1"), Some("10.0.0.5"), None, None)])),
              Reservation(Some([Instance(Some("i-2"), Some("10.0.1.9"), Some("3.3.3.3"), None)]))])));
            && AddressesResult(call, PrivateIpAddress) == ["10.0.0.5", "10.0.1.9"]
            && AddressesResult(call, PublicIpAddress) == ["3.3.3.3"]
  {
    var r1 := Reservation(Some([Instance(Some("i-1"), Some("10.0.0.5"), None, None)]));
    var r2 := Reservation(Some([Instance(Some("i-2"), Some("10.0.1.9"), Some("3.3.3.3"), None)]));
    var i1, i2 := r1.instances.value[0], r2.instances.value[0];
    assert [r1, r2][..1] == [r1];
    assert [r1][..0] == [];
    assert Instances([r1]) == Join(Instances([]), Some([i1]));
    assert [] + [i1] == [i1];
    assert Instances([r1]) == Some([i1]);
    assert Instances([r1, r2]) == Join(Some([i1]), Some([i2]));
    assert [i1] + [i2] == [i1, i2];
    assert Instances([r1, r2]) == Some([i1, i2]);
    assert [i1, i2][..1] == [i1];
    assert [i1][..0] == [];
    assert Addresses([i1], PrivateIpAddress) == ["10.0.0.5"];
    assert Addresses([i1], PublicIpAddress) == [];
  }

  /** Hop limit 1 makes an instance a candidate; hop limit 2 does not. */
  lemma HopLimits()
    ensures ImdsResult(Described(Response(Some([Reservation(Some([
              Instance(Some("i-abc123"), None, None, Some(MetadataOptions(Some(1)))),
              Instance(Some("i-def456"), None, None, Some(MetadataOptions(Some(2))))]))])))) == ["i-abc123"]
  {
    var a := Instance(Some("i-abc123"), None, None, Some(MetadataOptions(Some(1))));
    var b := Instance(Some("i-def456"), None, None, Some(MetadataOptions(Some(2))));
    var r := Reservation(Some([a, b]));
    assert [r][..0] == [];
    assert Instances([r]) == Join(Instances([]), Some([a, b]));
    assert [] + [a, b] == [a, b];
    assert Instances([r]) == Some([a, b]);
    assert [a, b][..1] == [a];
    assert [a][..0] == [];
    assert Judge(a) == Included("i-abc123");
    assert Imds([a]) == Join(Imds([]), Some(["i-abc123"]));
    assert [] + ["i-abc123"] == ["i-abc123"];
    assert Imds([a]) == Some(["i-abc123"]);
    assert Judge(b) == Excluded;
  }
}

/** The EC2 helpers of src/lib/aws-utils.js that have logic of their own:
    the per-region client cache, flattening a `describeInstances` answer into
    instance records, the composite status string of `describeInstanceStatus`,
    and the geography-aware ordering of `describeRegions`.  The SDK's answers
    are passed in as values shaped like the SDK's response objects. */
module AwsUtils {
  import opened Wrappers
  import opened Text
  import opened Sorting

  const DefaultRegion := "us-east-1"

  // ---------------------------------------------------------------------
  // ec2Handle: one client per region, created on first use
  // ---------------------------------------------------------------------

  /** Stands for an `AWS.EC2` client bound to one region. */
  class Ec2Client {
    const region: string

    constructor (region: string)
      ensures this.region == region
    {
      this.region := region;
    }
  }

  /** The module-level `regions` object: region name to its client. */
  class HandleCache {
    var handles: map<string, Ec2Client>

    ghost predicate Valid()
      reads this
    {
      forall r :: r in handles ==> handles[r].region == r
    }

    constructor ()
      ensures Valid() && handles == map[]
    {
      handles := map[];
    }

    /** `ec2Handle({ region })`; `None` is an omitted region. */
    method Handle(region: Option<string>) returns (client: Ec2Client)
      requires Valid()
      modifies this
      ensures Valid()
      ensures var key := region.GetOr(DefaultRegion);
        && key in handles && client == handles[key] && client.region == key
        && (key in old(handles) ==> handles == old(handles) && client == old(handles)[key])
        && (key !in old(handles) ==> fresh(client) && handles == old(handles)[key := client])
    {
      var key := region.GetOr(DefaultRegion);
      if key in handles {
        client := handles[key];
      } else {
        client := new Ec2Client(key);
        handles := handles[key := client];
      }
    }
  }

  // ---------------------------------------------------------------------
  // instances: describeInstances reservations to flat instance records
  // ---------------------------------------------------------------------

  datatype Tag = Tag(key: string, value: string)

  /** The fields of an SDK instance description that are read. */
  datatype SdkInstance = SdkInstance(
    instanceId: string,
    instanceType: string,
    privateIpAddress: Option<string>,
    publicIpAddress: Option<string>,
    stateName: string,
    tags: seq<Tag>)

  datatype Reservation = Reservation(instances: seq<SdkInstance>)

  /** The record the rest of the program works with. */
  datatype InstanceRecord = InstanceRecord(
    name: string,
    id: string,
    state: string,
    instanceType: string,
    privateIP: Option<string>,
    publicIP: Option<string>,
    region: string)

  /** Tag `i` is the first one whose key is `Name`. */
  predicate FirstNameTag(tags: seq<Tag>, i: int) {
    0 <= i < |tags| && tags[i].key == "Name" && forall j :: 0 <= j < i ==> tags[j].key != "Name"
  }

  /** `tags.find(tag => tag.Key === 'Name')`, its `Value`, or `''`. */
  function NameTag(tags: seq<Tag>): (name: string)
    ensures (forall i :: 0 <= i < |tags| ==> tags[i].key != "Name") ==> name == ""
    ensures forall i :: FirstNameTag(tags, i) ==> name == tags[i].value
  {
    if tags == [] then ""
    else if tags[0].key == "Name" then tags[0].value
    else
      var rest := NameTag(tags[1..]);
      assert forall i :: FirstNameTag(tags, i) ==> FirstNameTag(tags[1..], i - 1) by {
        forall i | FirstNameTag(tags, i) ensures FirstNameTag(tags[1..], i - 1) {
          assert forall j :: 0 <= j < i - 1 ==> tags[1..][j] == tags[j + 1];
        }
      }
      rest
  }

  function ToRecord(instance: SdkInstance, region: string): InstanceRecord {
    InstanceRecord(NameTag(instance.tags), instance.instanceId, instance.stateName,
      instance.instanceType, instance.privateIpAddress, instance.publicIpAddress, region)
  }

  function Records(instances: seq<SdkInstance>, region: string): seq<InstanceRecord> {
    seq(|instances|, i requires 0 <= i < |instances| => ToRecord(instances[i], region))
  }

  /** Number of instances over all reservations. */
  function Count(rs: seq<Reservation>): nat {
    if rs == [] then 0 else Count(rs[..|rs| - 1]) + |rs[|rs| - 1].instances|
  }

  /** The records of all reservations, in encounter order. */
  function Flatten(rs: seq<Reservation>, region: string): (records: seq<InstanceRecord>)
    ensures |records| == Count(rs)
  {
    if rs == [] then []
    else Flatten(rs[..|rs| - 1], region) + Records(rs[|rs| - 1].instances, region)
  }

  /** Instance `j` of reservation `r` becomes the record after the records of
      the reservations before `r` and the instances before `j`. */
  lemma {:induction false} FlattenAt(rs: seq<Reservation>, region: string, r: nat, j: nat)
    requires r < |rs| && j < |rs[r].instances|
    ensures Count(rs[..r]) + j < |Flatten(rs, region)|
    ensures Flatten(rs, region)[Count(rs[..r]) + j] == ToRecord(rs[r].instances[j], region)
  {
    var last := |rs| - 1;
    var front := rs[..last];
    if r == last {
      assert rs[..r] == front;
    } else {
      assert front[..r] == rs[..r];
      FlattenAt(front, region, r, j);
    }
  }

  /** `instances({ region })` after the SDK has answered with `reservations`:
      the nested loops that push one record per instance. */
  method Instances(reservations: seq<Reservation>, region: string) returns (out: seq<InstanceRecord>)
    ensures out == Flatten(reservations, region)
  {
    out := [];
    var r := 0;
    while r < |reservations|
      invariant 0 <= r <= |reservations|
      invariant out == Flatten(reservations[..r], region)
    {
      var batch := reservations[r].instances;
      var j := 0;
      while j < |batch|
        invariant 0 <= j <= |batch|
        invariant out == Flatten(reservations[..r], region) + Records(batch[..j], region)
      {
        assert Records(batch[..j + 1], region) == Records(batch[..j], region) + [ToRecord(batch[j], region)];
        out := out + [ToRecord(batch[j], region)];
        j := j + 1;
      }
      assert batch[..j] == batch;
      assert reservations[..r + 1][..r] == reservations[..r];
      assert Flatten(reservations[..r + 1], region) ==
        Flatten(reservations[..r], region) + Records(batch, region);
      r := r + 1;
    }
    assert reservations[..r] == reservations;
  }

  // ---------------------------------------------------------------------
  // state: the composite status string
  // ---------------------------------------------------------------------

  const NotApplicable := "not-applicable"

  /** `InstanceState.Name` and `InstanceStatus.Status` of one status entry. */
  datatype InstanceStatus = InstanceStatus(stateName: string, status: string)

  /** A `describeInstanceStatus` answer; `None` when `InstanceStatuses` is absent. */
  datatype StatusResponse = StatusResponse(instanceStatuses: Option<seq<InstanceStatus>>)

  /** What `state` hands back: the composite string, or, when there is no
      first status entry, the untouched response or the empty status list. */
  datatype StateReply = Composite(text: string) | WholeResponse(response: StatusResponse) | EmptyStatuses

  /** `"<lifecycle>"` when the health check does not apply, otherwise
      `"<lifecycle>: <health>"`. */
  function CompositeStatus(stateName: string, status: string): (s: string)
    ensures |stateName| <= |s| && s[..|stateName|] == stateName
    ensures s == stateName <==> status == NotApplicable
    ensures status != NotApplicable ==> s[|stateName|..] == ": " + status
    ensures ':' !in stateName ==> FirstPart(s, ':') == stateName
  {
    var suffix := if status == NotApplicable then "" else ": " + status;
    if ':' in stateName then stateName + suffix
    else
      FirstPartOfPrefixed(stateName, suffix, ':');
      stateName + suffix
  }

  function State(response: StatusResponse): (reply: StateReply)
    ensures reply == WholeResponse(response) <==> response.instanceStatuses.None?
    ensures reply == EmptyStatuses <==> response.instanceStatuses == Some([])
    ensures reply.Composite? ==>
      var statuses := response.instanceStatuses.value;
      |statuses| > 0 && reply.text == CompositeStatus(statuses[0].stateName, statuses[0].status)
    ensures response.instanceStatuses.Some? && response.instanceStatuses.value != [] ==>
      var first := response.instanceStatuses.value[0];
      reply == Composite(CompositeStatus(first.stateName, first.status))
    ensures reply.WholeResponse? ==> reply.response == response
  {
    match response.instanceStatuses
    case None => WholeResponse(response)
    case Some(statuses) =>
      if statuses == [] then EmptyStatuses
      else Composite(CompositeStatus(statuses[0].stateName, statuses[0].status))
  }

  // ---------------------------------------------------------------------
  // sortIndex and listRegions
  // ---------------------------------------------------------------------

  const RegionSort: seq<string> := ["us-east", "us-west", "us", "ca", "eu", "sa", "ap"]
  const Unranked := 1000

  /** `region.split('-')` with its last piece popped, joined back: the
      name without its last `-` piece. */
  function Stem(region: string): string {
    var parts := Split(region, '-');
    Join(parts[..|parts| - 1], '-')
  }

  /** `region.split('-')[0]` once the last piece is popped: present only
      when the name has a `-`. */
  function Head(region: string): Option<string> {
    var parts := Split(region, '-');
    if |parts| >= 2 then Some(parts[0]) else None
  }

  /** Rank of a region: the position of its stem, else of its first piece,
      else 1000. */
  function SortIndex(region: string): (rank: int)
    ensures 0 <= rank < |RegionSort| || rank == Unranked
    ensures Stem(region) in RegionSort ==> 0 <= rank < |RegionSort| && RegionSort[rank] == Stem(region)
    ensures Stem(region) !in RegionSort && Head(region).Some? && Head(region).value in RegionSort ==>
      0 <= rank < |RegionSort| && RegionSort[rank] == Head(region).value
    ensures rank == Unranked <==>
      Stem(region) !in RegionSort && (Head(region).None? || Head(region).value !in RegionSort)
  {
    var parts := Split(region, '-');
    var front := parts[..|parts| - 1];
    var index := IndexOf(RegionSort, Join(front, '-'));
    if index >= 0 then index
    else
      var index' := if |front| > 0 then IndexOf(RegionSort, front[0]) else -1;
      if index' >= 0 then index' else Unranked
  }

  /** The pieces `SortIndex` looks at, for a region written as `first` +
      `middle` + `-` + `last` with `first` and `last` free of `-`: the name
      without its last piece is `first` + `middle`, and the first piece is
      `first`. */
  lemma {:induction false} RegionPieces(region: string, first: string, middle: string, last: string)
    requires region == first + middle + "-" + last
    requires '-' !in first && '-' !in last
    requires middle == "" || middle[0] == '-'
    ensures Head(region) == Some(first) && Stem(region) == first + middle
  {
    var prefix := first + middle;
    assert region == prefix + "-" + last;
    SplitAppend(prefix, last, '-');
    SplitJoin([last], '-');
    JoinSplit(prefix, '-');
    FirstPartOfPrefixed(first, middle, '-');
    var pieces := Split(prefix, '-');
    assert Split(region, '-') == pieces + [last];
    assert (pieces + [last])[..|pieces|] == pieces;
  }

  /** A name without `-` is not ranked. */
  lemma SortIndexUndashed(region: string)
    requires '-' !in region
    ensures SortIndex(region) == Unranked
  {
    SplitSingle(region, '-');
  }

  /** A name whose stem is unlisted takes the position of its first piece,
      when that piece is listed once. */
  lemma RankByHead(region: string, head: string, i: nat)
    requires Stem(region) !in RegionSort && Head(region) == Some(head)
    requires i < |RegionSort| && RegionSort[i] == head
    requires forall j :: 0 <= j < |RegionSort| && j != i ==> RegionSort[j] != head
    ensures SortIndex(region) == i
  {
  }

  /** `us-east-1` has the listed stem `us-east` and comes first. */
  lemma RankUsEast(region: string)
    requires region == "us-east-1"
    ensures SortIndex(region) == 0
  {
    assert Stem(region) == "us-east" by {
      RegionPieces(region, "us", "-east", "1");
    }
    assert forall i :: 1 <= i < |RegionSort| ==> RegionSort[i] != "us-east";
  }

  /** `us-gov-west-1` has an unlisted stem and falls back to its first
      piece `us`. */
  lemma RankUsGovWest(region: string)
    requires region == "us-gov-west-1"
    ensures SortIndex(region) == 2
  {
    assert Head(region) == Some("us") && Stem(region) == "us-gov-west" by {
      RegionPieces(region, "us", "-gov-west", "1");
    }
    assert "us-gov-west" !in RegionSort by {
      assert forall i :: 0 <= i < |RegionSort| ==> |RegionSort[i]| < |"us-gov-west"|;
    }
    assert forall i :: 0 <= i < |RegionSort| && i != 2 ==> RegionSort[i] != "us";
    RankByHead(region, "us", 2);
  }

  /** `eu-central-1` falls back to its first piece `eu`. */
  lemma RankEuCentral(region: string)
    requires region == "eu-central-1"
    ensures SortIndex(region) == 4
  {
    assert Head(region) == Some("eu") && Stem(region) == "eu-central" by {
      RegionPieces(region, "eu", "-central", "1");
    }
    assert "eu-central" !in RegionSort by {
      assert forall i :: 0 <= i < |RegionSort| ==> |RegionSort[i]| < |"eu-central"|;
    }
    assert forall i :: 0 <= i < |RegionSort| && i != 4 ==> RegionSort[i] != "eu";
    RankByHead(region, "eu", 4);
  }

  /** `me-south-1` matches neither its stem nor its first piece. */
  lemma RankMeSouth(region: string)
    requires region == "me-south-1"
    ensures SortIndex(region) == Unranked
  {
    assert Head(region) == Some("me") && Stem(region) == "me-south" by {
      RegionPieces(region, "me", "-south", "1");
    }
    assert forall i :: 0 <= i < |RegionSort| ==> |RegionSort[i]| < |"me-south"|;
    assert forall i :: 0 <= i < |RegionSort| ==> RegionSort[i][0] != 'm';
  }

  /** The `listRegions` comparator: rank first, then name. */
  predicate RegionLe(a: string, b: string) {
    SortIndex(a) < SortIndex(b) || (SortIndex(a) == SortIndex(b) && StrLe(a, b))
  }

  lemma RegionLeIsTotalPreorder()
    ensures TotalPreorder(RegionLe)
  {
    forall a, b ensures RegionLe(a, b) || RegionLe(b, a) {
      StrLeTotal(a, b);
    }
    forall a, b, c | RegionLe(a, b) && RegionLe(b, c) ensures RegionLe(a, c) {
      if SortIndex(a) == SortIndex(b) == SortIndex(c) {
        StrLeTransitive(a, b, c);
      }
    }
  }

  datatype RegionInfo = RegionInfo(regionName: string)

  function RegionNames(regions: seq<RegionInfo>): seq<string> {
    seq(|regions|, i requires 0 <= i < |regions| => regions[i].regionName)
  }

  /** `listRegions()` after the SDK has answered with `regions`. */
  function ListRegions(regions: seq<RegionInfo>): (names: seq<string>)
    ensures SortedBy(RegionLe, names)
    ensures multiset(names) == multiset(RegionNames(regions))
  {
    RegionLeIsTotalPreorder();
    Sort(RegionLe, RegionNames(regions))
  }
}

/** The hub (core network) policy document the network stack submits, built
    from the attachment ids of the two inspection VPCs, and the tag-based
    attachment association it asks the hub to apply. */
module Policy {
  import opened Network
  import Firewall

  /** The edge locations of the core network. */
  const Regions: seq<string> := ["eu-west-1", "us-east-1"]

  /** The organisation's address range behind the core network. */
  const OrganisationCidr: string := "10.0.0.0/8"

  datatype Segment = Segment(name: string, isolateAttachments: bool, requireAttachmentAcceptance: bool, edgeLocations: seq<string>)

  datatype EdgeLocation = EdgeLocation(location: string)

  datatype CoreNetworkConfiguration = CoreNetworkConfiguration(asnRanges: seq<string>, edgeLocations: seq<EdgeLocation>)

  /** The only condition type the document uses: `{ type: 'tag-exists', key }`. */
  datatype Condition = TagExists(key: string)

  datatype AttachmentAction = AttachmentAction(associationMethod: string, segment: string)

  datatype AttachmentPolicy = AttachmentPolicy(ruleNumber: int, conditions: seq<Condition>, action: AttachmentAction)

  /** `share` with `share-with`, or `create-route` with destination CIDR blocks and destinations. */
  datatype SegmentAction =
    | Share(mode: string, segment: string, shareWith: string)
    | CreateRoute(destinationCidrBlocks: seq<string>, destinations: seq<string>, segment: string)

  datatype PolicyDocument = PolicyDocument(
    version: string,
    segments: seq<Segment>,
    coreNetworkConfiguration: CoreNetworkConfiguration,
    attachmentPolicies: seq<AttachmentPolicy>,
    segmentActions: seq<SegmentAction>)

  function Locations(edges: seq<EdgeLocation>): seq<string>
  {
    if |edges| == 0 then [] else Locations(edges[..|edges| - 1]) + [edges[|edges| - 1].location]
  }

  function SegmentNames(doc: PolicyDocument): set<string>
  {
    set s | s in doc.segments :: s.name
  }

  /** Every segment an attachment policy or a segment action names is declared. */
  ghost predicate SegmentsDeclared(doc: PolicyDocument)
  {
    && (forall p :: p in doc.attachmentPolicies ==> p.action.segment in SegmentNames(doc))
    && (forall a :: a in doc.segmentActions ==> a.segment in SegmentNames(doc))
  }

  ghost predicate UniqueSegmentNames(doc: PolicyDocument)
  {
    forall i, j :: 0 <= i < j < |doc.segments| ==> doc.segments[i].name != doc.segments[j].name
  }

  /** Rule numbers increase strictly in document order. */
  ghost predicate RuleNumbersIncreasing(policies: seq<AttachmentPolicy>)
  {
    forall i, j :: 0 <= i < j < |policies| ==> policies[i].ruleNumber < policies[j].ruleNumber
  }

  /** Every segment is present at exactly the core network's edge locations. */
  ghost predicate EdgeLocationsAgree(doc: PolicyDocument)
  {
    forall s :: s in doc.segments ==> s.edgeLocations == Locations(doc.coreNetworkConfiguration.edgeLocations)
  }

  /** Every route injection names at least one CIDR block and only destinations among `ids`. */
  ghost predicate DestinationsResolved(doc: PolicyDocument, ids: set<string>)
  {
    forall a :: a in doc.segmentActions && a.CreateRoute? ==>
      |a.destinationCidrBlocks| > 0 && |a.destinations| > 0 && (forall d :: d in a.destinations ==> d in ids)
  }

  ghost predicate WellFormed(doc: PolicyDocument, ids: set<string>)
  {
    SegmentsDeclared(doc) && UniqueSegmentNames(doc) && RuleNumbersIncreasing(doc.attachmentPolicies)
    && EdgeLocationsAgree(doc) && DestinationsResolved(doc, ids)
  }

  function SegmentOf(name: string): Segment
  {
    Segment(name, true, false, ["eu-west-1", "us-east-1"])
  }

  /** The `apply(([EUID, USID]) => ({ ... }))` callback: the document for the
      attachment ids of the EU and the US inspection VPCs. */
  function HubPolicy(euId: string, usId: string): (doc: PolicyDocument)
    ensures WellFormed(doc, {euId, usId})
    ensures Locations(doc.coreNetworkConfiguration.edgeLocations) == Regions
    ensures SegmentNames(doc) == {"prod", "sharedservices"}
    ensures exists a :: a in doc.segmentActions && a == CreateRoute([AnyDestination], [usId, euId], "prod")
    ensures forall a :: a in doc.segmentActions ==>
              (a.Share? && a.segment == "sharedservices" && a.shareWith == "*")
              || (a.CreateRoute? && a.segment == "prod" && a.destinations == [usId, euId])
  {
    PolicyDocument(
      "2021.12",
      [SegmentOf("prod"), SegmentOf("sharedservices")],
      CoreNetworkConfiguration(["65412-65534"], [EdgeLocation("eu-west-1"), EdgeLocation("us-east-1")]),
      [ AttachmentPolicy(100, [TagExists("prod")], AttachmentAction("constant", "prod")),
        AttachmentPolicy(200, [TagExists("sharedservices")], AttachmentAction("constant", "sharedservices")) ],
      [ Share("attachment-route", "sharedservices", "*"),
        CreateRoute(["0.0.0.0/0"], [usId, euId], "prod") ])
  }

  /** Every condition of a rule holds for an attachment carrying the tag keys `tagKeys`. */
  predicate Matches(policy: AttachmentPolicy, tagKeys: set<string>)
  {
    forall c :: c in policy.conditions ==> c.key in tagKeys
  }

  /** The first rule, in document order, whose conditions an attachment meets. */
  function FirstMatch(policies: seq<AttachmentPolicy>, tagKeys: set<string>): Option<AttachmentPolicy>
  {
    if |policies| == 0 then None
    else if Matches(policies[0], tagKeys) then Some(policies[0])
    else FirstMatch(policies[1..], tagKeys)
  }

  /** The segment the hub associates an attachment with, if any rule matches. */
  function AssociatedSegment(doc: PolicyDocument, tagKeys: set<string>): Option<string>
  {
    match FirstMatch(doc.attachmentPolicies, tagKeys)
    case Some(p) => Some(p.action.segment)
    case None => None
  }

  /** With strictly increasing rule numbers, the first match in document order is
      the matching rule with the lowest rule number, as the hub evaluates them;
      there is none exactly when no rule matches. */
  lemma {:induction false} FirstMatchIsLowestRule(policies: seq<AttachmentPolicy>, tagKeys: set<string>)
    requires RuleNumbersIncreasing(policies)
    ensures FirstMatch(policies, tagKeys).None? <==> forall i :: 0 <= i < |policies| ==> !Matches(policies[i], tagKeys)
    ensures FirstMatch(policies, tagKeys).Some? ==>
              var p := FirstMatch(policies, tagKeys).value;
              p in policies && Matches(p, tagKeys)
              && forall i :: 0 <= i < |policies| && Matches(policies[i], tagKeys) ==> p.ruleNumber <= policies[i].ruleNumber
  {
    if |policies| > 0 && !Matches(policies[0], tagKeys) {
      var rest := policies[1..];
      FirstMatchIsLowestRule(rest, tagKeys);
      forall i | 0 < i < |policies|
        ensures policies[i] == rest[i - 1]
      {
      }
    }
  }

  /** The hub associates an attachment by its tag keys: a `prod` tag puts it in
      `prod` (rule 100 is looked at first), otherwise a `sharedservices` tag puts
      it in `sharedservices`, and any other attachment is left unassociated. */
  lemma HubPolicyAssociation(euId: string, usId: string, tagKeys: set<string>)
    ensures AssociatedSegment(HubPolicy(euId, usId), tagKeys) ==
              if "prod" in tagKeys then Some("prod")
              else if "sharedservices" in tagKeys then Some("sharedservices")
              else None
  {
    var ps := HubPolicy(euId, usId).attachmentPolicies;
    assert Matches(ps[0], tagKeys) <==> "prod" in tagKeys by {
      assert ps[0].conditions == [TagExists("prod")];
    }
    assert Matches(ps[1], tagKeys) <==> "sharedservices" in tagKeys by {
      assert ps[1].conditions == [TagExists("sharedservices")];
    }
    assert ps[1..][0] == ps[1];
    assert ps[1..][1..] == [];
    assert FirstMatch(ps[1..][1..], tagKeys) == None;
    assert FirstMatch(ps[1..], tagKeys) == if "sharedservices" in tagKeys then Some(ps[1]) else None;
  }

  /** The inspection VPCs' attachments, tagged only `sharedservices`, meet rule
      200's condition and not rule 100's, and land in `sharedservices`. */
  lemma InspectionAttachmentIsSharedServices(euId: string, usId: string, region: string, accountId: string,
                                             coreNetworkId: string, vpcId: string, subnetIds: seq<string>)
    ensures var doc := HubPolicy(euId, usId);
            var tagKeys := Firewall.CloudWanAttachment(region, accountId, coreNetworkId, vpcId, subnetIds).tags.Keys;
            && !Matches(doc.attachmentPolicies[0], tagKeys)
            && Matches(doc.attachmentPolicies[1], tagKeys)
            && AssociatedSegment(doc, tagKeys) == Some("sharedservices")
  {
    var tagKeys := Firewall.CloudWanAttachment(region, accountId, coreNetworkId, vpcId, subnetIds).tags.Keys;
    HubPolicyAssociation(euId, usId, tagKeys);
    var ps := HubPolicy(euId, usId).attachmentPolicies;
    assert ps[0].conditions[0] == TagExists("prod");
    assert ps[1].conditions == [TagExists("sharedservices")];
  }
}

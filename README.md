# Cloud WAN sample: inspection routing, hub policy and workload attachment

This project models the core of a Pulumi program that builds an AWS Cloud WAN
hub-and-spoke network. The network stack creates one inspection VPC per region:
an isolated tier for the Cloud WAN attachment, a private tier holding an AWS
Network Firewall, and a public tier. Once the firewall reports where its
per-zone endpoints are, the stack routes the isolated subnets (0.0.0.0/0) and
the public subnets (the organisation range, 10.0.0.0/8) through the endpoint of
their own zone. It attaches each inspection VPC to the core network under the
`sharedservices` tag. It also submits a core network policy document, built
from the two attachment ids, that defines the `prod` and `sharedservices`
segments, their tag-based association rules and the route sharing between them.
The workload stack creates a VPC with one isolated tier. It attaches that VPC
under the segment named by its `cloudWanSegment` tag and gives every isolated
subnet with a route table a default route to the core network.

The model works on resolved values. Every Pulumi `Output` has already produced
its value, and each resource the program declares becomes a record:
- `Network`: subnets, routes, VPC layouts, and the generic route emission `PlannedRoutes`.
- `Arns`: the ARN strings and a reader for them.
- `Firewall`: the inspection VPC.
- `Policy`: the hub policy document and how the hub associates an attachment.
- `Workload`: the workload VPC.

`Firewall.ResolveEndpoints`, `Firewall.CreateRoutes` and
`Workload.CreateDefaultRoutes` are the source's loops, written as loops. Each
is proved equal to a specification function: `EndpointMap`, `InspectionRoutes`
and `PlannedRoutes`. The lemmas state what those functions guarantee.

JavaScript truthiness is modelled explicitly. `endpointId[az]` counts as true
only when the zone is present and its endpoint id is not the empty string
(`Firewall.EndpointFor`, used through `Firewall.Routable`). A template string renders a missing workload region
as the text `undefined` (`Workload.RegionText`).

Every emitted list is a function of the resolved inputs alone. Running the
program again on the same snapshot therefore yields the same routes and the
same policy document. In the model this holds because each of them is a Dafny
function.

## Model

| member | source | states |
|---|---|---|
| Network.WithRoleMembers | projects/network/firewall.ts:78 | A subnet is among the subnets of a tier exactly when it is in the VPC and has that tier's type. |
| Network.WithRoleKeepsDistinctNames | projects/network/firewall.ts:78 | Selecting one tier keeps the subnet names distinct. |
| Network.PlannedRoutesMembers | projects/network/firewall.ts:90-106 | A route is emitted exactly when some subnet's plan yields it. |
| Network.PlannedRoutesDistinctNames | projects/network/firewall.ts:94 | When routes are named prefix plus subnet name and subnet names are distinct, route names are distinct. |
| Network.PlannedRouteFor | projects/network/firewall.ts:92-94 | A subnet gets a route with its name exactly when its plan yields one, and then exactly that route. |
| Arns.SplitColon | projects/network/firewall.ts:132 | The text before the first colon has no colon, and that text, a colon and the rest rebuild the input; no split means the input has no colon. |
| Arns.SplitColonAt | projects/network/firewall.ts:132 | Splitting a colon-free field followed by a colon gives back that field and the rest. |
| Arns.ParseFormat | projects/network/firewall.ts:132 | Reading a formatted ARN whose first four fields have no colon gives back its fields. |
| Arns.FormatParse | projects/network/firewall.ts:132 | A string that reads as an ARN is exactly the format of the fields read. |
| Arns.SubnetArnFields | projects/network/firewall.ts:132 | A subnet ARN reads as partition aws, service ec2, the region, the account and resource `subnet/<id>`. |
| Arns.VpcArnFields | projects/network/firewall.ts:138 | A VPC ARN reads as partition aws, service ec2, the region, the account and resource `vpc/<id>`. |
| Arns.CoreNetworkArnFields | projects/workload/workload.ts:76-78 | A core-network ARN reads as service networkmanager with an empty region field and resource `core-network/<id>`. |
| Arns.SubnetIdOfSubnetArn | projects/network/firewall.ts:132 | The subnet id read back from a subnet ARN is the id it was built from. |
| Arns.SubnetArnInjective | projects/network/firewall.ts:132 | In one region and account, two subnet ARNs are equal exactly when their subnet ids are. |
| Arns.SubnetArnsInOrder | projects/network/firewall.ts:132 | The ARN list has one entry per subnet id, in order, each that id's subnet ARN. |
| Arns.SubnetArnsRoundTrip | projects/network/firewall.ts:130-133 | The ARN list has one entry per subnet id, in order; each is that id's subnet ARN and reads back as that id. |
| Firewall.AttachmentObservations | projects/network/firewall.ts:84-86 | One sync state makes one assignment per attachment, in order, to its own zone. |
| Firewall.ResolveEndpoints | projects/network/firewall.ts:80-88 | The three nested loops leave the dictionary equal to `EndpointMap` of the snapshot. |
| Firewall.ResolveLastWriteWins | projects/network/firewall.ts:85 | A zone is in the dictionary exactly when some assignment names it; its value is that of the last such assignment. |
| Firewall.EndpointMapLastWriteWins | projects/network/firewall.ts:80-88 | A zone is in the endpoint map exactly when some sync state for it has an attachment, and its endpoint is that of the last attachment for it in iteration order. |
| Firewall.EmptySyncStateIsNoOp | projects/network/firewall.ts:83-84 | Adding a sync state with no attachments anywhere leaves the endpoint map unchanged. |
| Firewall.CreateRoutes | projects/network/firewall.ts:77-127 | The method's routes are `InspectionRoutes` of the snapshot: the isolated subnets' routes, then the public subnets'. |
| Firewall.InspectionRoutesSound | projects/network/firewall.ts:90-125 | Every route comes from a routable isolated subnet (to 0.0.0.0/0) or public subnet (to the organisation range), uses that subnet's route table and targets its own zone's endpoint; no private subnet is routed. |
| Firewall.InspectionRouteIff | projects/network/firewall.ts:90-117 | An isolated or public subnet gets a route exactly when its zone has a truthy endpoint and it has a route table; the route named after it uses that subnet's own route table, its own zone's endpoint and its role's destination. |
| Firewall.RoleNamesDisjoint | projects/network/firewall.ts:94-112 | A route name of the isolated tier never equals one of the public tier. |
| Firewall.InspectionRouteNamesDistinct | projects/network/firewall.ts:94-112 | With distinct subnet names, all route names are distinct: every subnet yields at most one route. |
| Firewall.CloudWanAttachment | projects/network/firewall.ts:129-145 | The attachment passes the core network id through and carries exactly the tag `sharedservices: cloudwan-segment`. |
| Firewall.CloudWanAttachmentArns | projects/network/firewall.ts:130-138 | The attachment lists one subnet ARN per isolated subnet id, in order, each reading back as its id, and a VPC ARN naming the VPC. |
| Firewall.SubnetMappingsInOrder | projects/network/firewall.ts:295-298 | The firewall has one subnet mapping per private subnet id, in order. |
| Firewall.InspectionVpc | projects/network/firewall.ts:44-66 | The VPC uses the given CIDR and `numberOfAzs`, or 2 when none is given, and has exactly three /24 tiers: isolated, private and public. |
| Firewall.LastWriteWinsExample | projects/network/firewall.ts:80-88 | Two statuses reporting `vpce-old` and then `vpce-new` for one zone, plus an empty sync state for another zone, give the map holding only `vpce-new`. |
| Firewall.BothZonesEndpoints | projects/network/firewall.ts:80-88 | A snapshot in which each of two zones reports one endpoint gives a map from each zone to its endpoint. |
| Firewall.PendingZoneEndpoints | projects/network/firewall.ts:83-88 | A zone whose sync state has no attachments gets no entry in the map. |
| Firewall.BothZonesRoutedExample | projects/network/firewall.ts:77-127 | When both zones report an endpoint, the routes are exactly two isolated-subnet routes and two public-subnet routes, each through its own zone's endpoint. |
| Firewall.PendingZoneExample | projects/network/firewall.ts:77-127 | When only one zone reports an endpoint, only that zone's isolated and public subnets are routed, and no error arises. |
| Policy.HubPolicy | projects/network/index.ts:81-164 | Every named segment is declared; segment names are unique; rule numbers increase; each segment's edge locations equal the core network's, which equal `regions`; the create-route action goes to 0.0.0.0/0 with destinations exactly `[USID, EUID]`; every action is either a share with `*` or that create-route. |
| Policy.FirstMatchIsLowestRule | projects/network/index.ts:116-143 | With increasing rule numbers, the first matching rule in document order is the matching rule with the lowest number; there is none exactly when no rule matches. |
| Policy.HubPolicyAssociation | projects/network/index.ts:116-143 | A `prod` tag puts an attachment in `prod`; otherwise a `sharedservices` tag puts it in `sharedservices`; otherwise it is unassociated. |
| Policy.InspectionAttachmentIsSharedServices | projects/network/index.ts:116-143 | The inspection attachment's tags meet rule 200's condition and not rule 100's, and it lands in `sharedservices`. |
| Workload.AttachmentDesiredState | projects/workload/workload.ts:58-71 | The desired state passes the core network id through and carries exactly one tag, keyed by the segment with value `cloudwan-segment`. |
| Workload.DesiredStateArns | projects/workload/workload.ts:59-63 | The subnet ARNs match the subnet ids one for one, in order, each reading back as its id; the VPC ARN names the VPC in the same region and account. |
| Workload.WorkloadAttachmentSegment | projects/workload/workload.ts:65-67 | The hub puts the attachment in its tagged segment when the policy has a rule for it (`prod`, `sharedservices`); any other segment, such as `nonprod`, leaves it unassociated. |
| Workload.CreateDefaultRoutes | projects/workload/workload.ts:80-99 | The method's routes are `PlannedRoutes` of the isolated subnets under the core-network plan. |
| Workload.DefaultRoutesSound | projects/workload/workload.ts:82-95 | Every default route goes to 0.0.0.0/0 through the core network ARN, from the route table of a subnet that has one, and is named after that subnet. |
| Workload.DefaultRoutesTargetCoreNetwork | projects/workload/workload.ts:76-87 | When the routes are given the ARN built from the account and core network id, every route targets the core network, and its ARN reads back as service networkmanager, an empty region, that account and `core-network/<id>`. |
| Workload.DefaultRouteIff | projects/workload/workload.ts:83-85 | With distinct subnet names, route names are distinct, and a subnet gets a default route exactly when it has a route table. |
| Workload.WorkloadVpc | projects/workload/workload.ts:35-50 | The VPC uses the given CIDR and `numberOfAzs`, or 2 when none is given, and has a single isolated /24 tier. |

## Left out

- Pulumi `Output`, `apply` and `.then` asynchrony, and `dependsOn` ordering, are left out. The model works on resolved values. The per-subnet `availabilityZone.apply` callbacks in `createRoutes` are taken to run in subnet order, so the model fixes the order in which routes are registered, which the program does not.
- Resource constructors (`aws.ec2.Route`, `aws.networkmanager.VpcAttachment`, `aws.cloudcontrol.Resource`, `aws.networkfirewall.Firewall`, `awsx.ec2.Vpc`, `CoreNetworkPolicyAttachment`) are calls into the cloud provider. Each is modelled as the record of the arguments it is given, and the model does not cover what the provider does with them.
- How awsx allocates subnets, route tables and CIDR blocks across zones is the library's behaviour. Subnets enter the model as given.
- `JSON.stringify` and `pulumi.jsonStringify` are left out: the desired state and the policy document are records, not text.
- The Network Firewall rule groups and firewall policy (projects/network/firewall.ts:147-293) are constant declarative configuration whose matching is done by the AWS service. Only the subnet mappings (lines 295-298) are modelled.
- Security groups, the IAM role and instance profile, SSM endpoints, the AMI lookup and the EC2 instance (projects/workload/workload.ts:101-272) are provisioning plumbing with no logic of their own.
- projects/network/cloudwan.ts, the providers, the `getCallerIdentity` lookup and the constant instantiations in both index files are not part of this model, apart from the `regions` and `organisationCidr` constants.
- Firewall.EndpointFor: keys inherited from the JavaScript object prototype (such as `constructor`) are not modelled. A zone name equal to one of them would read as truthy in the source.
- Policy.Matches: a rule matches when all of its `tag-exists` conditions hold. Every rule here has exactly one condition, so the hub's rule for combining several conditions does not arise.
- Policy.HubPolicy: the document's constant fields (version, asn ranges, `isolate-attachments` and `require-attachment-acceptance` flags) are in the record, but its contract does not restate them.

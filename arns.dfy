/** Amazon Resource Names as both stacks build them with template strings, and
    the six colon-separated fields (`arn:partition:service:region:account:resource`)
    a reader of those names recovers from them. */
module Arns {
  import opened Network

  /** The fields of an ARN. The resource field is everything after the fifth colon. */
  datatype Arn = Arn(partition: string, service: string, region: string, account: string, resource: string)

  /** The six fields joined by colons (concatenation grouped from the right). */
  function Format(a: Arn): string
  {
    "arn" + (":" + (a.partition + (":" + (a.service + (":" + (a.region + (":" + (a.account + (":" + a.resource)))))))))
  }

  /** The text before the first colon and the text after it. */
  function SplitColon(s: string): (r: Option<(string, string)>)
    ensures r.Some? ==> ':' !in r.value.0 && s == r.value.0 + (":" + r.value.1)
    ensures r.None? ==> ':' !in s
  {
    if |s| == 0 then None
    else if s[0] == ':' then Some(("", s[1..]))
    else
      match SplitColon(s[1..])
      case None => None
      case Some((a, b)) => Some(([s[0]] + a, b))
  }

  /** The fields of `s`, when it has at least five colons and its first field is `arn`. */
  function Parse(s: string): Option<Arn>
  {
    var f0 := SplitColon(s);
    if f0.None? || f0.value.0 != "arn" then None else
    var f1 := SplitColon(f0.value.1);
    if f1.None? then None else
    var f2 := SplitColon(f1.value.1);
    if f2.None? then None else
    var f3 := SplitColon(f2.value.1);
    if f3.None? then None else
    var f4 := SplitColon(f3.value.1);
    if f4.None? then None else
    Some(Arn(f1.value.0, f2.value.0, f3.value.0, f4.value.0, f4.value.1))
  }

  /** No colon inside the four fields that precede the resource. */
  predicate Unambiguous(a: Arn)
  {
    ':' !in a.partition && ':' !in a.service && ':' !in a.region && ':' !in a.account
  }

  lemma {:induction false} SplitColonAt(a: string, b: string)
    requires ':' !in a
    ensures SplitColon(a + (":" + b)) == Some((a, b))
  {
    if |a| > 0 {
      assert (a + (":" + b))[1..] == a[1..] + (":" + b);
      SplitColonAt(a[1..], b);
      assert [a[0]] + a[1..] == a;
    } else {
      assert (a + (":" + b))[1..] == b;
    }
  }

  /** Reading a formatted ARN gives its fields back. */
  lemma ParseFormat(a: Arn)
    requires Unambiguous(a)
    ensures Parse(Format(a)) == Some(a)
  {
    var rest4 := a.account + (":" + a.resource);
    var rest3 := a.region + (":" + rest4);
    var rest2 := a.service + (":" + rest3);
    var rest1 := a.partition + (":" + rest2);
    SplitColonAt("arn", rest1);
    SplitColonAt(a.partition, rest2);
    SplitColonAt(a.service, rest3);
    SplitColonAt(a.region, rest4);
    SplitColonAt(a.account, a.resource);
  }

  /** A string is read back only if it is exactly the format of what was read. */
  lemma FormatParse(s: string)
    requires Parse(s).Some?
    ensures Format(Parse(s).value) == s && Unambiguous(Parse(s).value)
  {
  }

  /** `arn:aws:ec2:${region}:${account}:subnet/${subnetId}` */
  function SubnetArn(region: string, account: string, subnetId: string): string
  {
    Format(Arn("aws", "ec2", region, account, "subnet/" + subnetId))
  }

  /** `arn:aws:ec2:${region}:${account}:vpc/${vpcId}` */
  function VpcArn(region: string, account: string, vpcId: string): string
  {
    Format(Arn("aws", "ec2", region, account, "vpc/" + vpcId))
  }

  /** `arn:aws:networkmanager::${account}:core-network/${coreNetworkId}` */
  function CoreNetworkArn(account: string, coreNetworkId: string): string
  {
    Format(Arn("aws", "networkmanager", "", account, "core-network/" + coreNetworkId))
  }

  /** `subnetIds.map(subnetId => SubnetArn(region, account, subnetId))` */
  function SubnetArns(region: string, account: string, subnetIds: seq<string>): seq<string>
  {
    if |subnetIds| == 0 then []
    else SubnetArns(region, account, subnetIds[..|subnetIds| - 1]) + [SubnetArn(region, account, subnetIds[|subnetIds| - 1])]
  }

  /** A subnet ARN names partition aws, service ec2, the given region and account,
      and the resource `subnet/<id>`. */
  lemma SubnetArnFields(region: string, account: string, subnetId: string)
    requires ':' !in region && ':' !in account
    ensures Parse(SubnetArn(region, account, subnetId)) == Some(Arn("aws", "ec2", region, account, "subnet/" + subnetId))
  {
    var a := Arn("aws", "ec2", region, account, "subnet/" + subnetId);
    ParseFormat(a);
  }

  lemma VpcArnFields(region: string, account: string, vpcId: string)
    requires ':' !in region && ':' !in account
    ensures Parse(VpcArn(region, account, vpcId)) == Some(Arn("aws", "ec2", region, account, "vpc/" + vpcId))
  {
    var a := Arn("aws", "ec2", region, account, "vpc/" + vpcId);
    ParseFormat(a);
  }

  /** The core network is a global resource: its ARN has an empty region field. */
  lemma CoreNetworkArnFields(account: string, coreNetworkId: string)
    requires ':' !in account
    ensures Parse(CoreNetworkArn(account, coreNetworkId)) == Some(Arn("aws", "networkmanager", "", account, "core-network/" + coreNetworkId))
  {
    var a := Arn("aws", "networkmanager", "", account, "core-network/" + coreNetworkId);
    ParseFormat(a);
  }

  /** The subnet id a subnet ARN names, if it is one. */
  function SubnetIdOf(arn: string): Option<string>
  {
    var p := Parse(arn);
    if p.Some? && p.value.partition == "aws" && p.value.service == "ec2"
       && |p.value.resource| >= 7 && p.value.resource[..7] == "subnet/"
    then Some(p.value.resource[7..])
    else None
  }

  lemma SubnetIdOfSubnetArn(region: string, account: string, subnetId: string)
    requires ':' !in region && ':' !in account
    ensures SubnetIdOf(SubnetArn(region, account, subnetId)) == Some(subnetId)
  {
    SubnetArnFields(region, account, subnetId);
    assert ("subnet/" + subnetId)[7..] == subnetId;
  }

  /** Different subnet ids give different ARNs, whatever the region and account. */
  lemma SubnetArnInjective(region: string, account: string, x: string, y: string)
    ensures SubnetArn(region, account, x) == SubnetArn(region, account, y) <==> x == y
  {
    var prefix := "arn" + (":" + ("aws" + (":" + ("ec2" + (":" + (region + (":" + (account + ":"))))))));
    assert SubnetArn(region, account, x) == prefix + ("subnet/" + x);
    assert SubnetArn(region, account, y) == prefix + ("subnet/" + y);
    PrefixCancels(prefix, "subnet/" + x, "subnet/" + y);
    PrefixCancels("subnet/", x, y);
  }

  /** The ARN list has one entry per subnet id, in the same order. */
  lemma {:induction false} SubnetArnsInOrder(region: string, account: string, subnetIds: seq<string>)
    ensures |SubnetArns(region, account, subnetIds)| == |subnetIds|
    ensures forall i :: 0 <= i < |subnetIds| ==>
              SubnetArns(region, account, subnetIds)[i] == SubnetArn(region, account, subnetIds[i])
  {
    if |subnetIds| > 0 {
      var init := subnetIds[..|subnetIds| - 1];
      SubnetArnsInOrder(region, account, init);
      forall i | 0 <= i < |init|
        ensures SubnetArns(region, account, subnetIds)[i] == SubnetArn(region, account, subnetIds[i])
      {
        assert init[i] == subnetIds[i];
      }
    }
  }

  /** The ARN list has one entry per subnet id, in the same order, and each
      entry reads back as the subnet id it was built from. */
  lemma SubnetArnsRoundTrip(region: string, account: string, subnetIds: seq<string>)
    requires ':' !in region && ':' !in account
    ensures |SubnetArns(region, account, subnetIds)| == |subnetIds|
    ensures forall i :: 0 <= i < |subnetIds| ==>
              SubnetArns(region, account, subnetIds)[i] == SubnetArn(region, account, subnetIds[i])
              && SubnetIdOf(SubnetArns(region, account, subnetIds)[i]) == Some(subnetIds[i])
  {
    SubnetArnsInOrder(region, account, subnetIds);
    forall i | 0 <= i < |subnetIds|
      ensures SubnetIdOf(SubnetArn(region, account, subnetIds[i])) == Some(subnetIds[i])
    {
      SubnetIdOfSubnetArn(region, account, subnetIds[i]);
    }
  }
}

/** Gossip topic names: building them, reading the fork digest and the subnet back, and the cache in front. */
module Topics {
  import opened Bytes
  import opened Text

  const SUBNETS := 64
  const AGGREGATED_TOPIC := "mump2p_aggregated_messages"
  const BLOCK_BASE := "beacon_block"
  const ATTESTATION_PREFIX := "beacon_attestation_"

  datatype TopicMeta = Unknown | BeaconBlock | Attestation(subnet: nat)

  // ---------- building ----------

  function BuildFullTopic(digest: string, descriptor: string): string {
    "/eth2/" + ToLower(digest) + "/" + TrimSpace(descriptor) + "/ssz_snappy"
  }

  function SubnetDescriptor(subnet: nat): string { ATTESTATION_PREFIX + Decimal(subnet) }

  function AttestationTopic(digest: string, subnet: nat): string {
    BuildFullTopic(digest, SubnetDescriptor(subnet))
  }

  // ---------- reading ----------

  predicate IsName(s: string) { forall i :: 0 <= i < |s| ==> 'a' <= s[i] <= 'z' || s[i] == '_' }

  /** A name, with or without `_` and digits after it. */
  predicate IsDescriptor(s: string) {
    exists k :: 1 <= k <= |s| && IsName(s[..k]) && (k == |s| || (s[k] == '_' && k + 1 < |s| && AllDigits(s[k + 1..])))
  }

  /** The full topic pattern: prefix, eight hex digits, descriptor, suffix. */
  predicate IsFullTopic(s: string) {
    && |s| >= 27 && s[..6] == "/eth2/" && AllHex(s[6..14]) && s[14] == '/'
    && s[|s| - 11..] == "/ssz_snappy" && IsDescriptor(s[15..|s| - 11])
  }

  function ForkDigest(topic: string): string {
    if IsFullTopic(topic) then ToLower(topic[6..14]) else ""
  }

  predicate IsBeaconBlockTopic(topic: string) { Contains(topic, BLOCK_BASE) }

  predicate IsAttestationTopic(topic: string) { Contains(topic, ATTESTATION_PREFIX) }

  function ExtractIndex(s: string): Option<nat> {
    var end := LastIndex(s, '/');
    if end == -1 then None
    else
      var start := LastIndex(s[..end], '_');
      if start == -1 then None
      else match ParseUint(s[start + 1..end])
        case None => None
        case Some(n) => if n >= SUBNETS then None else Some(n)
  }

  function ParseTopicMeta(topic: string): (m: TopicMeta)
    ensures m.Attestation? ==> m.subnet < SUBNETS
  {
    if IsBeaconBlockTopic(topic) then BeaconBlock
    else if IsAttestationTopic(topic) then
      match ExtractIndex(topic)
      case None => Unknown
      case Some(n) => Attestation(n)
    else Unknown
  }

  // ---------- round trip ----------

  lemma Layout(p: string, d: string, m: string, x: string, n: string, z: string)
    requires |p| == 6 && |d| == 8 && |m| == 1 && |x| == 19 && |z| == 11
    ensures var t := p + d + m + (x + n) + z;
            && |t| == 45 + |n| && t[..6] == p && t[6..14] == d && t[14] == m[0]
            && t[15..34] == x && t[34..34 + |n|] == n && t[34 + |n|..] == z && t[15..|t| - 11] == x + n
  {
  }

  /** What a built attestation topic looks like, piece by piece. */
  lemma Pieces(digest: string, subnet: nat)
    requires |digest| == 8
    ensures var n := Decimal(subnet);
            var t := AttestationTopic(digest, subnet);
            && |t| == 45 + |n| && t[..6] == "/eth2/" && t[6..14] == ToLower(digest) && t[14] == '/'
            && t[15..34] == ATTESTATION_PREFIX && t[34..34 + |n|] == n && t[34 + |n|..] == "/ssz_snappy"
            && t[15..|t| - 11] == ATTESTATION_PREFIX + n
  {
    hide TrimSpace, ToLower, Decimal;
    DescriptorTrimmed(subnet);
    Layout("/eth2/", ToLower(digest), "/", ATTESTATION_PREFIX, Decimal(subnet), "/ssz_snappy");
  }

  lemma DescriptorTrimmed(n: nat)
    ensures TrimSpace(SubnetDescriptor(n)) == SubnetDescriptor(n)
  {
    ValueOfDecimal(n);
    var d := Decimal(n);
    assert IsDigit(d[|d| - 1]);
    hide Decimal, TrimSpace;
    TrimSpaceIdle(SubnetDescriptor(n));
  }

  lemma DescriptorMatches(n: string)
    requires n != "" && AllDigits(n)
    ensures IsDescriptor(ATTESTATION_PREFIX + n)
  {
    var d := ATTESTATION_PREFIX + n;
    assert d[..18] == ATTESTATION_PREFIX[..18] && IsName(ATTESTATION_PREFIX[..18]);
    assert d[19..] == n && d[18] == '_';
  }

  lemma DigestReadsBack(digest: string, subnet: nat)
    requires |digest| == 8 && AllHex(digest)
    ensures ForkDigest(AttestationTopic(digest, subnet)) == ToLower(digest)
  {
    ValueOfDecimal(subnet);
    hide AttestationTopic, Decimal, IsDescriptor;
    Pieces(digest, subnet);
    DescriptorMatches(Decimal(subnet));
    LowerIdempotent(digest);
  }

  lemma IndexReadsBack(digest: string, subnet: nat)
    requires |digest| == 8 && AllHex(digest) && subnet < SUBNETS
    ensures ExtractIndex(AttestationTopic(digest, subnet)) == Some(subnet)
  {
    hide AttestationTopic, Decimal, LastIndex, Value, AllDigits;
    ValueOfDecimal(subnet);
    IndexSpan(digest, subnet);
  }

  lemma IndexTooLarge(digest: string, n: nat)
    requires |digest| == 8 && n >= 64
    ensures ExtractIndex(AttestationTopic(digest, n)).None?
  {
    hide AttestationTopic, Decimal, LastIndex, Value, AllDigits;
    ValueOfDecimal(n);
    IndexSpan(digest, n);
  }

  /** The index of a built topic is what stands between its last underscore and its last slash. */
  lemma IndexSpan(digest: string, n: nat)
    requires |digest| == 8
    ensures var t := AttestationTopic(digest, n);
            && |t| > 34 + |Decimal(n)| && LastIndex(t, '/') == 34 + |Decimal(n)|
            && LastIndex(t[..34 + |Decimal(n)|], '_') == 33 && t[34..34 + |Decimal(n)|] == Decimal(n)
  {
    hide AttestationTopic, Decimal, LastIndex, AllDigits;
    ValueOfDecimal(n);
    Pieces(digest, n);
    var t, end := AttestationTopic(digest, n), 34 + |Decimal(n)|;
    LastSlash(t, end);
    assert t[33] == '_' by { assert t[15..34][18] == t[33]; }
    LastUnderscore(t, end);
  }

  lemma LastSlash(t: string, end: nat)
    requires end + 11 == |t| && t[end..] == "/ssz_snappy"
    ensures LastIndex(t, '/') == end
  {
    hide LastIndex;
    var z := "/ssz_snappy";
    assert z[0] == '/' && forall k :: 0 < k < 11 ==> z[k] != '/';
    assert forall k :: end <= k < |t| ==> t[k] == t[end..][k - end];
    LastIndexIs(t, '/', end);
  }

  lemma LastUnderscore(t: string, end: nat)
    requires 34 <= end <= |t| && t[33] == '_' && AllDigits(t[34..end])
    ensures LastIndex(t[..end], '_') == 33
  {
    hide LastIndex;
    assert forall k :: 34 <= k < end ==> t[..end][k] == t[34..end][k - 34];
    LastIndexIs(t[..end], '_', 33);
  }

  lemma SliceAt(s: string, i: nat, j: nat)
    requires i <= j <= |s|
    ensures forall k :: i <= k < j ==> s[k] == s[i..j][k - i]
  {
  }

  /** No letter k anywhere, so no block topic. */
  lemma NoLetterK(digest: string, subnet: nat)
    requires |digest| == 8 && AllHex(digest)
    ensures 'k' !in AttestationTopic(digest, subnet)
  {
    ValueOfDecimal(subnet);
    hide AttestationTopic, Decimal, ToLower;
    var t := AttestationTopic(digest, subnet);
    var n := Decimal(subnet);
    Pieces(digest, subnet);
    assert 'k' !in ToLower(digest) && 'k' !in n;
    NowhereInPieces(t, |n|, 'k');
  }

  lemma NowhereInPieces(t: string, n: nat, c: char)
    requires |t| == 45 + n
    requires c !in t[..6] && c !in t[6..14] && c != t[14] && c !in t[15..34] && c !in t[34..34 + n] && c !in t[34 + n..]
    ensures c !in t
  {
    assert t == t[..6] + t[6..14] + [t[14]] + t[15..34] + t[34..34 + n] + t[34 + n..];
  }

  lemma KindReadsBack(digest: string, subnet: nat)
    requires |digest| == 8 && AllHex(digest)
    ensures var t := AttestationTopic(digest, subnet); IsAttestationTopic(t) && !IsBeaconBlockTopic(t)
  {
    hide AttestationTopic, Decimal;
    var t := AttestationTopic(digest, subnet);
    Pieces(digest, subnet);
    NoLetterK(digest, subnet);
    assert OccursAt(t, ATTESTATION_PREFIX, 15);
    assert BLOCK_BASE[11] == 'k';
    MissingChar(t, BLOCK_BASE, 'k');
  }

  /** The topic built for a digest and a subnet reads back as exactly that digest, lower-cased, and that subnet. */
  lemma TopicRoundTrip(digest: string, subnet: nat)
    requires |digest| == 8 && AllHex(digest) && subnet < SUBNETS
    ensures ForkDigest(AttestationTopic(digest, subnet)) == ToLower(digest)
    ensures ParseTopicMeta(AttestationTopic(digest, subnet)) == Attestation(subnet)
  {
    DigestReadsBack(digest, subnet);
    IndexReadsBack(digest, subnet);
    KindReadsBack(digest, subnet);
  }

  /**
   * The digest of any topic: lower-cased from a topic of five parts whose descriptor is a name of letters and
   * underscores with or without a number behind it, and only from such a topic.
   */
  lemma DigestOfTopic(digest: string, name: string, number: string)
    requires |digest| == 8 && AllHex(digest) && name != "" && IsName(name)
    requires number == "" || (|number| > 1 && number[0] == '_' && AllDigits(number[1..]))
    ensures ForkDigest("/eth2/" + digest + "/" + (name + number) + "/ssz_snappy") == ToLower(digest)
  {
    hide AllHex, IsDescriptor, ToLower;
    DescriptorOf(name, number);
    FiveParts("/eth2/", digest, "/", name + number, "/ssz_snappy");
  }

  lemma DescriptorOf(name: string, number: string)
    requires name != "" && IsName(name)
    requires number == "" || (|number| > 1 && number[0] == '_' && AllDigits(number[1..]))
    ensures IsDescriptor(name + number)
  {
    var d, k := name + number, |name|;
    assert d[..k] == name;
    if number != "" {
      assert d[k + 1..] == number[1..];
    }
  }

  lemma FiveParts(p: string, d: string, m: string, x: string, z: string)
    requires |p| == 6 && |d| == 8 && |m| == 1 && |z| == 11
    ensures var t := p + d + m + x + z;
            && |t| == 26 + |x| && t[..6] == p && t[6..14] == d && t[14] == m[0]
            && t[15..|t| - 11] == x && t[|t| - 11..] == z
  {
  }

  lemma OnlyFromTopics(topic: string)
    requires ForkDigest(topic) != ""
    ensures |topic| >= 27 && topic[..6] == "/eth2/" && AllHex(topic[6..14]) && topic[14] == '/'
    ensures topic[|topic| - 11..] == "/ssz_snappy" && ForkDigest(topic) == ToLower(topic[6..14])
    ensures forall i :: 15 <= i < |topic| - 11 ==> 'a' <= topic[i] <= 'z' || topic[i] == '_' || '0' <= topic[i] <= '9'
  {
    hide AllHex, ToLower;
    var x := topic[15..|topic| - 11];
    var k :| 1 <= k <= |x| && IsName(x[..k]) && (k == |x| || (x[k] == '_' && k + 1 < |x| && AllDigits(x[k + 1..])));
    forall i | 15 <= i < |topic| - 11
      ensures 'a' <= topic[i] <= 'z' || topic[i] == '_' || '0' <= topic[i] <= '9'
    {
      assert topic[i] == x[i - 15];
      if i - 15 < k {
        assert x[..k][i - 15] == x[i - 15];
      } else if i - 15 > k {
        assert x[k + 1..][i - 15 - k - 1] == x[i - 15];
      }
    }
  }

  /** A built attestation topic in full. */
  lemma AttestationTopicIs(digest: string, n: nat)
    ensures AttestationTopic(digest, n)
         == "/eth2/" + ToLower(digest) + "/" + ("beacon_attestation_" + Decimal(n)) + "/ssz_snappy"
  {
    hide Decimal, TrimSpace, ToLower;
    DescriptorTrimmed(n);
  }

  /** A built attestation topic in full; it reads back, or as unknown when there is no such subnet. */
  lemma AttestationTopicExactly(digest: string, n: nat)
    requires |digest| == 8 && AllHex(digest)
    ensures AttestationTopic(digest, n)
         == "/eth2/" + ToLower(digest) + "/" + ("beacon_attestation_" + Decimal(n)) + "/ssz_snappy"
    ensures ParseTopicMeta(AttestationTopic(digest, n)) == if n < 64 then Attestation(n) else Unknown
  {
    hide AttestationTopic, Decimal, ToLower, ExtractIndex, Contains;
    AttestationTopicIs(digest, n);
    KindReadsBack(digest, n);
    if n < 64 {
      IndexReadsBack(digest, n);
    } else {
      IndexTooLarge(digest, n);
    }
  }

  /** A built block topic reads back as a block topic of its digest. */
  lemma BlockTopicRoundTrip(digest: string)
    requires |digest| == 8 && AllHex(digest)
    ensures BuildFullTopic(digest, "beacon_block") == "/eth2/" + ToLower(digest) + "/" + "beacon_block" + "/ssz_snappy"
    ensures ParseTopicMeta(BuildFullTopic(digest, "beacon_block")) == BeaconBlock
    ensures ForkDigest(BuildFullTopic(digest, "beacon_block")) == ToLower(digest)
  {
    hide TrimSpace, ToLower, IsDescriptor, Contains, AllHex, ExtractIndex;
    BlockPieces("beacon_block");
    var t := BuildFullTopic(digest, "beacon_block");
    AroundDigest("/eth2/", ToLower(digest), "/", "beacon_block", "/ssz_snappy");
    FoundAt(t, "beacon_block", 15);
    assert AllHex(ToLower(digest)) by { LowerHex(digest); }
    LowerIdempotent(digest);
  }

  lemma LowerHex(digest: string)
    requires AllHex(digest)
    ensures AllHex(ToLower(digest))
  {
  }

  lemma AroundDigest(p: string, d: string, m: string, x: string, z: string)
    requires |p| == 6 && |d| == 8 && |m| == 1 && |x| == 12 && |z| == 11
    ensures var t := p + d + m + x + z;
            && |t| == 38 && t[..6] == p && t[6..14] == d && t[14] == m[0] && t[15..27] == x && t[27..] == z
  {
  }

  lemma BlockPieces(s: string)
    requires s == "beacon_block"
    ensures TrimSpace(s) == s && IsDescriptor(s)
  {
    hide TrimSpace, IsDescriptor, IsName, IsSpace;
    BlockIsName(s);
    BlockDescriptor(s);
    BlockEnds(s);
    TrimSpaceIdle(s);
  }

  lemma BlockIsName(s: string)
    requires s == "beacon_block"
    ensures IsName(s)
  {
  }

  lemma BlockEnds(s: string)
    requires s == "beacon_block"
    ensures !IsSpace(s[0]) && !IsSpace(s[|s| - 1])
  {
  }

  lemma BlockDescriptor(s: string)
    requires s != "" && IsName(s)
    ensures IsDescriptor(s)
  {
    assert s[..|s|] == s;
  }

  /**
   * The kind of any topic.  A block topic contains "beacon_block"; else an attestation topic of subnet `n` contains
   * "beacon_attestation_", and between its last slash and the last underscore before that stand the digits of `n`,
   * which is below 64; anything else is unknown.
   */
  lemma MetaExactly(topic: string, n: nat)
    ensures ParseTopicMeta(topic).BeaconBlock? <==> Contains(topic, "beacon_block")
    ensures ParseTopicMeta(topic) == Attestation(n) <==>
            && !Contains(topic, "beacon_block") && Contains(topic, "beacon_attestation_") && n < 64
            && exists i, j :: IndexBetween(topic, i, j, n)
  {
    hide Contains, Value, LastIndex, ExtractIndex, IndexBetween;
    IndexExactly(topic, n);
  }

  lemma IndexExactly(topic: string, n: nat)
    ensures ExtractIndex(topic) == Some(n) <==> n < 64 && exists i, j :: IndexBetween(topic, i, j, n)
  {
    hide Value, LastIndex;
    if ExtractIndex(topic) == Some(n) {
      IndexIsBetween(topic, n);
    }
    if i, j :| IndexBetween(topic, i, j, n) {
      LastIndexIs(topic, '/', j);
      LastIndexIs(topic[..j], '_', i);
    }
  }

  lemma IndexIsBetween(topic: string, n: nat)
    requires ExtractIndex(topic) == Some(n)
    ensures n < 64 && exists i, j :: IndexBetween(topic, i, j, n)
  {
    hide Value, LastIndex;
    var end := LastIndex(topic, '/');
    LastIndexFound(topic, '/');
    LastIndexFound(topic[..end], '_');
    var start := LastIndex(topic[..end], '_');
    assert forall k :: start <= k < end ==> topic[..end][k] == topic[k];
    assert IndexBetween(topic, start, end, n);
  }

  /** The last slash is at `j`, the last underscore before it at `i`, and the digits between them are `n`. */
  predicate IndexBetween(topic: string, i: int, j: int, n: nat) {
    && 0 <= i < j < |topic| && topic[i] == '_' && topic[j] == '/'
    && (forall k :: j < k < |topic| ==> topic[k] != '/') && (forall k :: i < k < j ==> topic[k] != '_')
    && i + 1 < j && AllDigits(topic[i + 1..j]) && Value(topic[i + 1..j]) == n
  }

  /** Whatever the digest is, topics of different subnets differ. */
  lemma SubnetsApart(digest: string, m: nat, n: nat)
    requires AttestationTopic(digest, m) == AttestationTopic(digest, n)
    ensures m == n
  {
    ValueOfDecimal(m);
    ValueOfDecimal(n);
    hide TrimSpace, ToLower, Decimal;
    DescriptorTrimmed(m);
    DescriptorTrimmed(n);
    var h := "/eth2/" + ToLower(digest) + "/";
    Middle(h, ATTESTATION_PREFIX, Decimal(m), "/ssz_snappy");
    Middle(h, ATTESTATION_PREFIX, Decimal(n), "/ssz_snappy");
  }

  lemma Middle(h: string, x: string, n: string, z: string)
    ensures var t := h + (x + n) + z; |h| + |x| <= |t| - |z| && t[|h| + |x|..|t| - |z|] == n
  {
  }

  // ---------- unpacking configured topics ----------

  const ATTESTATION_BASE := "beacon_attestation"

  function SubnetNames(n: nat): seq<string> {
    if n == 0 then [] else SubnetNames(n - 1) + [SubnetDescriptor(n - 1)]
  }

  /** A bare attestation topic stands for all subnets, every other topic for itself. */
  function Expand(topic: string): seq<string> {
    if IsBeaconBlockTopic(topic) || IsAttestationTopic(topic) then [topic]
    else if Contains(topic, ATTESTATION_BASE) then SubnetNames(SUBNETS)
    else [topic]
  }

  function ExpandAll(topics: seq<string>): seq<string> {
    if topics == [] then [] else ExpandAll(topics[..|topics| - 1]) + Expand(topics[|topics| - 1])
  }

  /** First occurrences, in order. */
  function Unique(topics: seq<string>): seq<string> {
    if topics == [] then []
    else
      var n := |topics| - 1;
      var u := Unique(topics[..n]);
      if topics[n] in u then u else u + [topics[n]]
  }

  method AppendSubnets(before: seq<string>) returns (result: seq<string>)
    ensures result == before + SubnetNames(SUBNETS)
  {
    hide SubnetDescriptor;
    result := before;
    for i := 0 to SUBNETS
      invariant result == before + SubnetNames(i)
    {
      result := result + [SubnetDescriptor(i)];
    }
  }

  /** A configured topic that stands for all subnets. */
  predicate IsBare(topic: string) {
    Contains(topic, "beacon_attestation") && !Contains(topic, "beacon_attestation_") && !Contains(topic, "beacon_block")
  }

  /** What a configured topic stands for: all 64 subnets, or itself. */
  ghost predicate StandsFor(topic: string, t: string) {
    if IsBare(topic) then IsSubnetName(t, 64) else t == topic
  }

  /** The name of one of the first `k` subnets. */
  ghost predicate IsSubnetName(t: string, k: nat) {
    exists n: nat :: n < k && t == "beacon_attestation_" + Decimal(n)
  }

  lemma {:induction false} SubnetNamesAre(k: nat, t: string)
    ensures t in SubnetNames(k) <==> IsSubnetName(t, k)
  {
    hide Decimal;
    if k > 0 {
      SubnetNamesAre(k - 1, t);
      assert SubnetDescriptor(k - 1) == "beacon_attestation_" + Decimal(k - 1);
      if n: nat :| n < k && t == "beacon_attestation_" + Decimal(n) {
        assert n == k - 1 ==> t == SubnetDescriptor(k - 1);
      }
    }
  }

  lemma {:induction false} ExpandAllLists(topics: seq<string>, t: string)
    ensures t in ExpandAll(topics) <==> exists i :: 0 <= i < |topics| && StandsFor(topics[i], t)
  {
    hide Contains, SubnetNames, StandsFor;
    if topics != [] {
      var n := |topics| - 1;
      ExpandAllLists(topics[..n], t);
      ExpandLists(topics[n], t);
      assert forall i :: 0 <= i < n ==> topics[..n][i] == topics[i];
    }
  }

  lemma ExpandLists(topic: string, t: string)
    ensures t in Expand(topic) <==> StandsFor(topic, t)
  {
    hide Contains, SubnetNames, IsSubnetName;
    SubnetNamesAre(64, t);
    assert SubnetNames(SUBNETS) == SubnetNames(64);
    assert Contains(topic, ATTESTATION_BASE) == Contains(topic, "beacon_attestation");
    assert IsBeaconBlockTopic(topic) == Contains(topic, "beacon_block");
    assert IsAttestationTopic(topic) == Contains(topic, "beacon_attestation_");
  }

  /** Lists what the configured topics stand for, everything and nothing else, each once. */
  method UnpackTopics(topics: seq<string>) returns (r: seq<string>)
    ensures r == Unique(ExpandAll(topics))
    ensures forall t :: t in r <==> exists i :: 0 <= i < |topics| && StandsFor(topics[i], t)
    ensures forall i, j :: 0 <= i < j < |r| ==> r[i] != r[j]
  {
    hide IsBeaconBlockTopic, IsAttestationTopic, Contains, SubnetDescriptor, SubnetNames, Unique, StandsFor;
    var result := [];
    for k := 0 to |topics|
      invariant result == ExpandAll(topics[..k])
    {
      var topic := topics[k];
      assert topics[..k + 1][..k] == topics[..k];
      if IsBeaconBlockTopic(topic) || IsAttestationTopic(topic) {
        result := result + [topic];
        continue;
      }
      if Contains(topic, ATTESTATION_BASE) {
        result := AppendSubnets(result);
        continue;
      }
      result := result + [topic];
    }
    assert topics[..|topics|] == topics;
    UniqueIsSet(result);
    forall t
      ensures t in ExpandAll(topics) <==> exists i :: 0 <= i < |topics| && StandsFor(topics[i], t)
    {
      ExpandAllLists(topics, t);
    }
    return Unique(result);
  }

  predicate Stable(topics: seq<string>) { forall i :: 0 <= i < |topics| ==> Expand(topics[i]) == [topics[i]] }

  predicate AllDifferent(topics: seq<string>) { forall i, j :: 0 <= i < j < |topics| ==> topics[i] != topics[j] }

  lemma DescriptorStable(n: nat)
    ensures Expand(SubnetDescriptor(n)) == [SubnetDescriptor(n)]
  {
    var d := SubnetDescriptor(n);
    assert OccursAt(d, ATTESTATION_PREFIX, 0);
    assert IsAttestationTopic(d);
    hide IsAttestationTopic, IsBeaconBlockTopic, Contains, SubnetNames, SubnetDescriptor;
  }

  lemma {:induction false} NamesStable(n: nat)
    ensures Stable(SubnetNames(n))
  {
    hide Expand, SubnetDescriptor;
    if n > 0 {
      NamesStable(n - 1);
      DescriptorStable(n - 1);
    }
  }

  lemma {:induction false} ExpandAllStable(topics: seq<string>)
    ensures Stable(ExpandAll(topics))
  {
    hide IsAttestationTopic, IsBeaconBlockTopic, Contains, SubnetNames;
    if topics != [] {
      ExpandAllStable(topics[..|topics| - 1]);
      NamesStable(SUBNETS);
    }
  }

  lemma {:induction false} UniqueIsSet(topics: seq<string>)
    ensures AllDifferent(Unique(topics))
    ensures forall t :: t in Unique(topics) <==> t in topics
  {
    if topics != [] {
      var n := |topics| - 1;
      UniqueIsSet(topics[..n]);
      assert topics == topics[..n] + [topics[n]];
    }
  }

  lemma StablePrefix(topics: seq<string>)
    requires Stable(topics) && topics != []
    ensures Stable(topics[..|topics| - 1]) && Expand(topics[|topics| - 1]) == [topics[|topics| - 1]]
  {
    hide Expand;
  }

  lemma {:induction false} StableExpandsToItself(topics: seq<string>)
    requires Stable(topics)
    ensures ExpandAll(topics) == topics
  {
    hide Expand, Stable;
    if topics != [] {
      var n := |topics| - 1;
      StablePrefix(topics);
      StableExpandsToItself(topics[..n]);
      assert topics[..n] + [topics[n]] == topics;
    }
  }

  lemma {:induction false} DifferentIsUnique(topics: seq<string>)
    requires AllDifferent(topics)
    ensures Unique(topics) == topics
  {
    hide AllDifferent;
    if topics != [] {
      LastIsDifferent(topics);
      var init, last := topics[..|topics| - 1], topics[|topics| - 1];
      DifferentIsUnique(init);
      assert Unique(topics) == init + [last];
    }
  }

  lemma LastIsDifferent(topics: seq<string>)
    requires AllDifferent(topics) && topics != []
    ensures var n := |topics| - 1;
            AllDifferent(topics[..n]) && topics[n] !in topics[..n] && topics == topics[..n] + [topics[n]]
  {
    var n := |topics| - 1;
    assert forall i :: 0 <= i < n ==> topics[..n][i] == topics[i];
  }

  /** Unpacking lists no topic twice, and unpacking again changes nothing. */
  lemma UnpackIdempotent(topics: seq<string>)
    ensures AllDifferent(Unique(ExpandAll(topics)))
    ensures Unique(ExpandAll(Unique(ExpandAll(topics)))) == Unique(ExpandAll(topics))
  {
    hide Expand, ExpandAll, Unique;
    var e := ExpandAll(topics);
    var u := Unique(e);
    ExpandAllStable(topics);
    UniqueIsSet(e);
    forall i | 0 <= i < |u|
      ensures Expand(u[i]) == [u[i]]
    {
      assert u[i] in e;
    }
    StableExpandsToItself(u);
    DifferentIsUnique(u);
  }

  // ---------- the cache ----------

  /** The process-wide cache of parsed topics. */
  class MetaCache {
    var cache: map<string, TopicMeta>

    /** Every entry agrees with parsing. */
    ghost predicate Valid()
      reads this
    {
      forall t :: t in cache ==> cache[t] == ParseTopicMeta(t)
    }

    constructor ()
      ensures Valid() && cache == map[]
    {
      cache := map[];
    }

    method TopicMetaFor(topic: string) returns (m: TopicMeta)
      requires Valid()
      modifies this
      ensures Valid() && m == ParseTopicMeta(topic)
      ensures cache == old(cache)[topic := m]
    {
      if topic in cache {
        return cache[topic];
      }
      m := ParseTopicMeta(topic);
      cache := cache[topic := m];
    }
  }
}

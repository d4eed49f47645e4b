/** IP pools of L3 policies as text, and the checks on pools and on the prefix length of their subnets.
    gbpservice/neutron/services/grouppolicy/common/utils.py, lines 20 to 36;
    gbpservice/neutron/db/grouppolicy/group_policy_db.py, lines 1072 to 1114. */
module IpPool {
  import opened Cidr
  import opened Text

  // ----- The text of a pool -----

  /** The characters Python's `strip` removes. */
  predicate IsSpace(c: char) {
    || '\U{9}' <= c <= '\U{D}' || '\U{1C}' <= c <= ' ' || c == '\U{85}' || c == '\U{A0}' || c == '\U{1680}'
    || '\U{2000}' <= c <= '\U{200A}' || c == '\U{2028}' || c == '\U{2029}' || c == '\U{202F}' || c == '\U{205F}'
        || c == '\U{3000}'
  }

  function StripLeft(s: string): string {
    if s != "" && IsSpace(s[0]) then StripLeft(s[1..]) else s
  }

  function StripRight(s: string): string {
    if s != "" && IsSpace(s[|s| - 1]) then StripRight(s[..|s| - 1]) else s
  }

  function Strip(s: string): string {
    StripRight(StripLeft(s))
  }

  /** convert_ip_pool_list_to_string: `', '.join` */
  function Join(pools: seq<string>): string {
    JoinBy(", ", pools)
  }

  /** Where the first comma is; the length of the text if there is none. */
  function Comma(s: string): (i: nat)
    ensures i <= |s| && (i < |s| ==> s[i] == ',')
  {
    if s == "" || s[0] == ',' then 0 else 1 + Comma(s[1..])
  }

  /** `split(',')` */
  function Split(s: string): (r: seq<string>)
    ensures r != []
    decreases |s|
  {
    if Comma(s) == |s| then [s] else [s[..Comma(s)]] + Split(s[Comma(s) + 1..])
  }

  function StripAll(parts: seq<string>): (r: seq<string>)
    ensures |r| == |parts| && forall i :: 0 <= i < |r| ==> r[i] == Strip(parts[i])
  {
    seq(|parts|, i requires 0 <= i < |parts| => Strip(parts[i]))
  }

  /** convert_ip_pool_string_to_list */
  function ToList(text: string): seq<string> {
    if text != "" then StripAll(Split(text)) else []
  }

  // ----- Joining, then splitting -----

  predicate CommaFree(pools: seq<string>) {
    forall i :: 0 <= i < |pools| ==> ',' !in pools[i]
  }

  predicate Trimmed(pools: seq<string>) {
    forall i :: 0 <= i < |pools| ==> Strip(pools[i]) == pools[i]
  }

  lemma {:induction false} CommaOfJoined(s: string, rest: string)
    requires ',' !in s
    ensures Comma(s + rest) == |s| + Comma(rest)
  {
    if s == "" {
      assert s + rest == rest;
    } else {
      assert (s + rest)[1..] == s[1..] + rest;
      CommaOfJoined(s[1..], rest);
    }
  }

  lemma SplitFirst(s: string, rest: string)
    requires ',' !in s
    ensures Split(s) == [s] && Split(s + "," + rest) == [s] + Split(rest)
  {
    CommaOfJoined(s, "");
    assert s + "" == s;
    CommaOfJoined(s, "," + rest);
    var t := s + "," + rest;
    assert t == s + ("," + rest);
    assert t[..|s|] == s && t[|s| + 1..] == rest;
  }

  /** What splitting gives after a space: every part has a space in front. */
  function Spaced(pools: seq<string>): (r: seq<string>)
    ensures |r| == |pools| && forall i :: 0 <= i < |r| ==> r[i] == " " + pools[i]
  {
    if pools == [] then [] else [" " + pools[0]] + Spaced(pools[1..])
  }

  lemma JoinMoves(s: string, rest: string)
    ensures s + ", " + rest == s + "," + (" " + rest)
    ensures " " + (s + ", " + rest) == (" " + s) + "," + (" " + rest)
  {
  }

  lemma {:induction false} SplitJoinedAfterSpace(pools: seq<string>)
    requires pools != [] && CommaFree(pools)
    ensures Split(" " + Join(pools)) == Spaced(pools)
  {
    var first := " " + pools[0];
    if |pools| == 1 {
      SplitFirst(first, "");
      assert Spaced(pools) == [first];
    } else {
      var rest := " " + Join(pools[1..]);
      SplitJoinedAfterSpace(pools[1..]);
      SplitFirst(first, rest);
      JoinMoves(pools[0], Join(pools[1..]));
    }
  }

  lemma SplitJoined(pools: seq<string>)
    requires pools != [] && CommaFree(pools)
    ensures Split(Join(pools)) == [pools[0]] + Spaced(pools[1..])
  {
    if |pools| == 1 {
      SplitFirst(pools[0], "");
    } else {
      SplitJoinedAfterSpace(pools[1..]);
      SplitFirst(pools[0], " " + Join(pools[1..]));
      JoinMoves(pools[0], Join(pools[1..]));
    }
  }

  lemma StripSpaced(s: string)
    ensures Strip(" " + s) == Strip(s)
  {
    assert (" " + s)[1..] == s;
  }

  // ----- Splitting and stripping in plain terms -----

  /** The parts are what a comma joins to the text, none of them with a comma of its own. */
  lemma SplitExactly(s: string, parts: seq<string>)
    ensures Split(s) == parts <==> parts != [] && CommaFree(parts) && JoinBy(",", parts) == s
  {
    SplitJoins(s);
    if parts != [] && CommaFree(parts) {
      SplitOfJoined(parts);
    }
  }

  lemma {:induction false} SplitJoins(s: string)
    ensures CommaFree(Split(s)) && JoinBy(",", Split(s)) == s
    decreases |s|
  {
    var i := Comma(s);
    NoCommaBefore(s);
    if i < |s| {
      var rest := s[i + 1..];
      SplitJoins(rest);
      assert ([s[..i]] + Split(rest))[1..] == Split(rest);
      assert s == s[..i] + "," + rest;
    } else {
      assert s[..i] == s;
    }
  }

  lemma {:induction false} NoCommaBefore(s: string)
    ensures ',' !in s[..Comma(s)]
  {
    if s != "" && s[0] != ',' {
      NoCommaBefore(s[1..]);
      assert s[..Comma(s)] == [s[0]] + s[1..][..Comma(s[1..])];
    }
  }

  lemma {:induction false} SplitOfJoined(parts: seq<string>)
    requires parts != [] && CommaFree(parts)
    ensures Split(JoinBy(",", parts)) == parts
  {
    if |parts| == 1 {
      SplitFirst(parts[0], "");
      assert parts == [parts[0]];
    } else {
      SplitOfJoined(parts[1..]);
      SplitFirst(parts[0], JoinBy(",", parts[1..]));
      assert parts == [parts[0]] + parts[1..];
    }
  }

  /** Stripping cuts spaces off both ends until there are none, and nothing else. */
  lemma StripExactly(s: string) returns (i: nat, j: nat)
    ensures i <= j <= |s| && Strip(s) == s[i..j]
    ensures (forall k :: 0 <= k < i ==> IsSpace(s[k])) && (forall k :: j <= k < |s| ==> IsSpace(s[k]))
    ensures i < j ==> !IsSpace(s[i]) && !IsSpace(s[j - 1])
  {
    i := LeftEnd(s);
    var n := RightEnd(s[i..]);
    j := i + n;
    assert s[i..][..n] == s[i..j];
  }

  lemma {:induction false} LeftEnd(s: string) returns (i: nat)
    ensures i <= |s| && StripLeft(s) == s[i..] && (forall k :: 0 <= k < i ==> IsSpace(s[k]))
    ensures i < |s| ==> !IsSpace(s[i])
  {
    if s != "" && IsSpace(s[0]) {
      i := LeftEnd(s[1..]);
      i := i + 1;
    } else {
      i := 0;
    }
  }

  lemma {:induction false} RightEnd(s: string) returns (j: nat)
    ensures j <= |s| && StripRight(s) == s[..j] && (forall k :: j <= k < |s| ==> IsSpace(s[k]))
    ensures j > 0 ==> !IsSpace(s[j - 1])
  {
    if s != "" && IsSpace(s[|s| - 1]) {
      j := RightEnd(s[..|s| - 1]);
    } else {
      j := |s|;
      assert s[..j] == s;
    }
  }

  /** Tab, line feed, vertical tab, form feed, carriage return, four separators, the blank, and the spaces and line
      separators beyond ASCII. */
  lemma SpacesExactly(c: char)
    ensures IsSpace(c) <==>
            c as int in {9, 10, 11, 12, 13, 28, 29, 30, 31, 32, 0x85, 0xA0, 0x1680, 0x2000, 0x2001, 0x2002, 0x2003,
                         0x2004, 0x2005, 0x2006, 0x2007, 0x2008, 0x2009, 0x200A, 0x2028, 0x2029, 0x202F, 0x205F, 0x3000}
  {
  }

  // ----- Counting commas -----

  function Commas(s: string): nat {
    if s == "" then 0 else (if s[0] == ',' then 1 else 0) + Commas(s[1..])
  }

  lemma {:induction false} CommasAppend(s: string, t: string)
    ensures Commas(s + t) == Commas(s) + Commas(t)
  {
    if s == "" {
      assert s + t == t;
    } else {
      assert (s + t)[1..] == s[1..] + t;
      CommasAppend(s[1..], t);
    }
  }

  lemma {:induction false} NoCommas(s: string)
    ensures Commas(s) == 0 <==> ',' !in s
    ensures Commas(s[..Comma(s)]) == 0
  {
    if s != "" {
      NoCommas(s[1..]);
      assert s == [s[0]] + s[1..];
      if s[0] != ',' {
        assert s[..Comma(s)] == [s[0]] + s[1..][..Comma(s[1..])];
        CommasAppend([s[0]], s[1..][..Comma(s[1..])]);
      }
    }
  }

  /** Splitting gives one part more than there are commas. */
  lemma {:induction false} SplitCount(s: string)
    ensures |Split(s)| == 1 + Commas(s)
    decreases |s|
  {
    if Comma(s) < |s| {
      SplitCount(s[Comma(s) + 1..]);
      CommasAfterFirst(s);
    } else {
      NoCommas(s);
      assert s[..Comma(s)] == s;
    }
  }

  lemma CommasAfterFirst(s: string)
    requires Comma(s) < |s|
    ensures Commas(s) == 1 + Commas(s[Comma(s) + 1..])
  {
    var i := Comma(s);
    NoCommas(s);
    CommasAppend(s[..i], s[i..]);
    assert s[..i] + s[i..] == s && s[i..][1..] == s[i + 1..];
  }

  lemma {:induction false} JoinedCommas(pools: seq<string>)
    requires pools != []
    ensures Commas(Join(pools)) >= |pools| - 1
    ensures Commas(Join(pools)) == |pools| - 1 <==> CommaFree(pools)
  {
    NoCommas(pools[0]);
    if |pools| > 1 {
      JoinedCommas(pools[1..]);
      CommasAppend(pools[0] + ", ", Join(pools[1..]));
      CommasAppend(pools[0], ", ");
      assert Commas(", ") == 1 by {
        assert ", "[1..] == " ";
      }
      assert CommaFree(pools) <==> ',' !in pools[0] && CommaFree(pools[1..]) by {
        assert forall i :: 1 <= i < |pools| ==> pools[i] == pools[1..][i - 1];
      }
    }
  }

  lemma RoundTripOfTrimmed(pools: seq<string>)
    requires pools != [] && Join(pools) != "" && CommaFree(pools)
    ensures ToList(Join(pools)) == StripAll(pools)
  {
    SplitJoined(pools);
    var parts := Split(Join(pools));
    forall i | 0 <= i < |pools| ensures Strip(parts[i]) == Strip(pools[i]) {
      if i > 0 {
        assert parts[i] == " " + pools[i];
        StripSpaced(pools[i]);
      }
    }
  }

  lemma CommasAddPools(pools: seq<string>)
    requires pools != [] && Join(pools) != "" && !CommaFree(pools)
    ensures |ToList(Join(pools))| > |pools|
  {
    SplitCount(Join(pools));
    JoinedCommas(pools);
  }

  lemma StripsToItself(pools: seq<string>)
    ensures StripAll(pools) == pools <==> Trimmed(pools)
  {
    if StripAll(pools) == pools {
      forall i | 0 <= i < |pools| ensures Strip(pools[i]) == pools[i] {
        assert StripAll(pools)[i] == pools[i];
      }
    }
  }

  lemma OnlyOneEmptyIsEmpty(pools: seq<string>)
    ensures Join(pools) == "" <==> pools == [] || pools == [""]
  {
    if |pools| == 1 {
      assert pools == [pools[0]];
    }
  }

  /** Converting a list to text and back returns the list exactly if every pool is trimmed and free of commas,
      and the list is not the one empty pool, whose text is empty. */
  lemma RoundTripExactly(pools: seq<string>)
    ensures ToList(Join(pools)) == pools <==> CommaFree(pools) && Trimmed(pools) && pools != [""]
  {
    OnlyOneEmptyIsEmpty(pools);
    StripsToItself(pools);
    if Join(pools) != "" {
      if CommaFree(pools) {
        RoundTripOfTrimmed(pools);
      } else {
        CommasAddPools(pools);
      }
    }
  }

  // ----- The checks -----

  const MAX_IPV4_SUBNET_PREFIX_LENGTH := 31

  function Version(p: Prefix): int {
    if p.v6 then 6 else 4
  }

  predicate VersionAllowed(p: Prefix, ipVersion: int) {
    if ipVersion == 46 then Version(p) == 4 || Version(p) == 6 else Version(p) == ipVersion
  }

  /** validate_ip_pool, on the networks of the pool */
  method ValidateIpPool(pools: seq<Prefix>, ipVersion: int) returns (ok: bool)
    ensures ok <==> forall p :: p in pools ==> VersionAllowed(p, ipVersion) && 1 <= p.length <= Width(p.v6) - 2
    ensures ok <==> forall p :: p in pools ==>
                      if p.v6 then ipVersion in {6, 46} && 1 <= p.length <= 126
                      else ipVersion in {4, 46} && 1 <= p.length <= 30
  {
    var validVersions := if ipVersion == 46 then {4, 6} else {ipVersion};
    for i := 0 to |pools|
      invariant forall k :: 0 <= k < i ==>
              VersionAllowed(pools[k], ipVersion) && 1 <= pools[k].length <= Width(pools[k].v6) - 2
    {
      var ipNet := pools[i];
      SizeAboveThree(ipNet);
      if Version(ipNet) !in validVersions {
        return false;
      }
      if Size(ipNet) <= 3 {
        return false;
      }
      if ipNet.length == 0 {
        return false;
      }
    }
    return true;
  }

  lemma SizeAboveThree(p: Prefix)
    ensures Size(p) > 3 <==> p.length <= Width(p.v6) - 2
  {
    var host := Width(p.v6) - p.length;
    if host > 2 {
      Pow2Grows(2, host);
    }
    assert Pow2(0) == 1 && Pow2(1) == 2 && Pow2(2) == 4;
  }

  /** validate_subnet_prefix_length, on the networks of the pool */
  method ValidateSubnetPrefixLength(ipVersion: int, newPrefixLength: int, pools: seq<Prefix>) returns (ok: bool)
    ensures ok <==> && (ipVersion == 4 || ipVersion == 46 ==> 2 <= newPrefixLength <= 31)
                    && forall p :: p in pools && !p.v6 ==> p.length <= newPrefixLength
  {
    if (ipVersion == 4 || ipVersion == 46) && (newPrefixLength > MAX_IPV4_SUBNET_PREFIX_LENGTH || newPrefixLength < 2) {
      return false;
    }
    for i := 0 to |pools|
      invariant forall k :: 0 <= k < i && !pools[k].v6 ==> pools[k].length <= newPrefixLength
    {
      if Version(pools[i]) == 4 {
        if pools[i].length > newPrefixLength {
          return false;
        }
      }
    }
    return true;
  }

  // ----- What accepted pools are good for -----

  /** The first address of the k-th subnet of length `n`. */
  function SubnetStart(p: Prefix, n: nat, k: nat): nat
    requires p.length <= n <= Width(p.v6)
  {
    FirstAddress(p) + k * Pow2(Width(p.v6) - n)
  }

  lemma BlocksFit(first: nat, m: nat, blocks: nat, k: nat)
    requires k < blocks
    ensures first + k * m + m <= first + blocks * m
  {
    MulMono(m, k + 1, blocks);
  }

  lemma SizeInSubnets(p: Prefix, n: nat)
    requires p.length <= n <= Width(p.v6)
    ensures Size(p) == Pow2(n - p.length) * Pow2(Width(p.v6) - n)
  {
    Pow2Sum(n - p.length, Width(p.v6) - n);
  }

  lemma SubnetFits(p: Prefix, n: nat, k: nat)
    requires p.length <= n <= Width(p.v6) && k < Pow2(n - p.length)
    ensures SubnetStart(p, n, k) + Pow2(Width(p.v6) - n) <= FirstAddress(p) + Size(p)
    ensures SubnetStart(p, n, k) < Pow2(Width(p.v6))
  {
    SizeInSubnets(p, n);
    BlocksFit(FirstAddress(p), Pow2(Width(p.v6) - n), Pow2(n - p.length), k);
    var a := Address(p.v6, SubnetStart(p, n, k));
    CoversBlock(p, a);
    CoversInFamily(p, a);
  }

  function Subnet(p: Prefix, n: nat, k: nat): Prefix
    requires p.length <= n <= Width(p.v6) && k < Pow2(n - p.length)
  {
    SubnetFits(p, n, k);
    Network(p.v6, SubnetStart(p, n, k), n)
  }

  lemma Distribute(q: nat, blocks: nat, m: nat, k: nat)
    ensures (q * blocks + k) * m == q * (blocks * m) + k * m
  {
  }

  /** The leading bits of a block that starts a multiple of its size after a larger block. */
  lemma BitsOfBlock(x: nat, s: nat, blocks: nat, m: nat, k: nat)
    requires m > 0 && s == blocks * m && s > 0
    ensures (Floor(x, s) + k * m) / m == (x / s) * blocks + k
  {
    Distribute(x / s, blocks, m, k);
    DivUnique(Floor(x, s) + k * m, m, (x / s) * blocks + k);
  }

  lemma BitsInBlock(x: nat, y: nat, s: nat, blocks: nat, m: nat)
    requires m > 0 && blocks > 0 && s == blocks * m && s > 0
    ensures y / s == x / s <==> (x / s) * blocks <= y / m < (x / s) * blocks + blocks
  {
    var top := y / m;
    DivDiv(y, m, blocks);
    DivRange(top, blocks);
    QuotientIs(top, blocks, x / s);
  }

  lemma QuotientIs(top: nat, blocks: nat, q: nat)
    requires blocks > 0
    ensures top / blocks == q <==> q * blocks <= top < q * blocks + blocks
  {
    DivRange(top, blocks);
    if q * blocks <= top < q * blocks + blocks {
      DivUnique(top, blocks, q);
    }
  }

  /** Subnet k continues the bits of the pool with k. */
  lemma SubnetCovers(p: Prefix, n: nat, k: nat, a: Address)
    requires p.length <= n <= Width(p.v6) && k < Pow2(n - p.length) && a.v6 == p.v6
    ensures Covers(Subnet(p, n, k), a) <==>
            a.value / Pow2(Width(p.v6) - n) == (p.address / Size(p)) * Pow2(n - p.length) + k
  {
    SizeInSubnets(p, n);
    BitsOfBlock(p.address, Size(p), Pow2(n - p.length), Pow2(Width(p.v6) - n), k);
  }

  lemma PoolCovers(p: Prefix, n: nat, a: Address)
    requires p.length <= n <= Width(p.v6) && a.v6 == p.v6
    ensures var first := (p.address / Size(p)) * Pow2(n - p.length);
            Covers(p, a) <==> first <= a.value / Pow2(Width(p.v6) - n) < first + Pow2(n - p.length)
  {
    SizeInSubnets(p, n);
    BitsInBlock(p.address, a.value, Size(p), Pow2(n - p.length), Pow2(Width(p.v6) - n));
  }

  /** Every address of the pool lies in exactly one of its `2^(n - p)` subnets, and no other address does. */
  lemma SubnetsPartition(p: Prefix, n: nat, a: Address)
    requires p.length <= n <= Width(p.v6)
    ensures Covers(p, a) <==> exists k :: 0 <= k < Pow2(n - p.length) && Covers(Subnet(p, n, k), a)
    ensures forall j, k ::
              (0 <= j < Pow2(n - p.length) && 0 <= k < Pow2(n - p.length)
               && Covers(Subnet(p, n, j), a) && Covers(Subnet(p, n, k), a)) ==> j == k
  {
    if a.v6 == p.v6 {
      SubnetsPartitionAt(p, n, a);
    }
  }

  lemma SubnetsPartitionAt(p: Prefix, n: nat, a: Address)
    requires p.length <= n <= Width(p.v6) && a.v6 == p.v6
    ensures Covers(p, a) <==> exists k :: 0 <= k < Pow2(n - p.length) && Covers(Subnet(p, n, k), a)
    ensures forall j, k ::
              (0 <= j < Pow2(n - p.length) && 0 <= k < Pow2(n - p.length)
               && Covers(Subnet(p, n, j), a) && Covers(Subnet(p, n, k), a)) ==> j == k
  {
    var blocks, first := Pow2(n - p.length), (p.address / Size(p)) * Pow2(n - p.length);
    var top := a.value / Pow2(Width(p.v6) - n);
    PoolCovers(p, n, a);
    forall k | 0 <= k < blocks ensures Covers(Subnet(p, n, k), a) <==> top == first + k {
      SubnetCovers(p, n, k, a);
    }
    if Covers(p, a) {
      assert Covers(Subnet(p, n, top - first), a);
    }
  }

  /** For IPv4 and dual stack, accepted IPv4 pools have room for at least one subnet of the accepted length. */
  lemma AcceptedPoolHasSubnets(pools: seq<Prefix>, ipVersion: int, n: int, p: Prefix, a: Address)
    requires ipVersion == 4 || ipVersion == 46
    requires forall q :: q in pools ==> VersionAllowed(q, ipVersion) && 1 <= q.length <= Width(q.v6) - 2
    requires 2 <= n <= 31 && forall q :: q in pools && !q.v6 ==> q.length <= n
    requires p in pools && !p.v6
    ensures 1 <= p.length <= 30 && p.length <= n <= 31 && Pow2(n - p.length) >= 1
    ensures Covers(p, a) <==> exists k :: 0 <= k < Pow2(n - p.length) && Covers(Subnet(p, n, k), a)
  {
    SubnetsPartition(p, n, a);
  }
}

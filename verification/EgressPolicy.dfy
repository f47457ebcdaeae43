/** Which destinations the egress proxy may connect to
    (src/agent/egress-policy.ts): the CIDR tests, the public-address test and the
    approval of a DNS answer set. */
module EgressPolicy {
  import opened Basics
  import opened Texts
  import opened Ipv4Addresses
  import opened Ipv6Addresses
  import opened Ipv6TextForms

  function Pow2(k: nat): (p: nat)
    ensures p > 0
  {
    if k == 0 then 1 else 2 * Pow2(k - 1)
  }

  datatype Block = Block(base: string, bits: nat)

  /** An address range, both ends included. */
  datatype Range = Range(first: int, last: int) {
    predicate Contains(v: nat) {
      first <= v <= last
    }
  }

  /** What is left of a number without its last bits, `size` being their power of
      two. */
  function Quotient(v: nat, size: nat): nat
    requires size > 0
  {
    v / size
  }

  predicate Ipv4CidrContains(v: nat, block: Block)
    requires block.bits <= 32
  {
    match Ipv4ToNumber(block.base)
    case None => false
    case Some(base) => Quotient(v, Pow2(32 - block.bits)) == Quotient(base, Pow2(32 - block.bits))
  }

  predicate Ipv6CidrContains(v: nat, block: Block)
    requires block.bits <= 128
  {
    match Ipv6ToBigInt(block.base)
    case None => false
    case Some(base) => Quotient(v, Pow2(128 - block.bits)) == Quotient(base, Pow2(128 - block.bits))
  }

  /** Dropping the low bits compares intervals. */
  lemma QuotientIs(v: nat, size: nat, q: nat)
    requires size > 0
    ensures Quotient(v, size) == q <==> q * size <= v < q * size + size
  {
    var d := v / size;
    assert v == d * size + v % size;
    MultiplesGrow(d + 1, q, size);
    MultiplesGrow(q + 1, d, size);
  }

  lemma MultiplesGrow(a: nat, b: nat, size: nat)
    ensures a <= b ==> a * size <= b * size
  {
  }

  /** The addresses that share the first bits of `base`: all those whose last
      `free` bits are anything. */
  function PrefixRange(base: nat, free: nat): Range {
    MultiplesOf(Quotient(base, Pow2(free)), Pow2(free))
  }

  /** The numbers whose quotient by `size` is `q`. */
  function MultiplesOf(q: nat, size: nat): Range
    requires size > 0
  {
    Range(q * size, q * size + size - 1)
  }

  lemma CidrIsARange(v: nat, base: nat, free: nat)
    ensures Quotient(v, Pow2(free)) == Quotient(base, Pow2(free)) <==> PrefixRange(base, free).Contains(v)
  {
    QuotientIs(v, Pow2(free), Quotient(base, Pow2(free)));
  }

  /* ---- IPv4 ---- */

  /** A listed block: the address its base text spells and its prefix length. */
  datatype V4Block = V4Block(base: Quad, bits: nat) {
    function AsText(): Block {
      Block(QuadText(base), bits)
    }

    function Addresses(): Range
      requires bits <= 32
    {
      PrefixRange(QuadValue(base), 32 - bits)
    }
  }

  const NONPUBLIC_V4: seq<V4Block> := [
    V4Block(Quad(0, 0, 0, 0), 8), V4Block(Quad(10, 0, 0, 0), 8), V4Block(Quad(100, 64, 0, 0), 10), V4Block(Quad(127, 0, 0, 0), 8),
    V4Block(Quad(168, 63, 129, 16), 32), V4Block(Quad(169, 254, 0, 0), 16), V4Block(Quad(172, 16, 0, 0), 12), V4Block(Quad(192, 0, 0, 0), 24),
    V4Block(Quad(192, 0, 2, 0), 24), V4Block(Quad(192, 88, 99, 0), 24), V4Block(Quad(192, 168, 0, 0), 16), V4Block(Quad(198, 18, 0, 0), 15),
    V4Block(Quad(198, 51, 100, 0), 24), V4Block(Quad(203, 0, 113, 0), 24), V4Block(Quad(224, 0, 0, 0), 4), V4Block(Quad(240, 0, 0, 0), 4)
  ]

  lemma V4ListIsWellFormed()
    ensures forall i :: 0 <= i < |NONPUBLIC_V4| ==> NONPUBLIC_V4[i].bits <= 32
  {
  }

  predicate IsPublicIpv4(address: string) {
    V4ListIsWellFormed();
    match Ipv4ToNumber(address)
    case None => false
    case Some(v) => !exists i :: 0 <= i < |NONPUBLIC_V4| && Ipv4CidrContains(v, NONPUBLIC_V4[i].AsText())
  }

  lemma V4TestIsMembership(v: nat, b: V4Block)
    requires b.bits <= 32
    ensures Ipv4CidrContains(v, b.AsText()) <==> b.Addresses().Contains(v)
  {
    QuadParses(b.base);
    V4TestOf(v, QuadText(b.base), QuadValue(b.base), b.bits);
  }

  lemma V4TestOf(v: nat, text: string, base: nat, bits: nat)
    requires bits <= 32 && Ipv4ToNumber(text) == Some(base)
    ensures Ipv4CidrContains(v, Block(text, bits)) <==> PrefixRange(base, 32 - bits).Contains(v)
  {
    CidrIsARange(v, base, 32 - bits);
  }

  /** The public IPv4 addresses are exactly those outside the listed ranges. */
  lemma PublicV4IsTheComplement(q: Quad)
    ensures IsPublicIpv4(QuadText(q)) <==>
            forall i :: 0 <= i < |NONPUBLIC_V4| ==>
              NONPUBLIC_V4[i].bits <= 32 && !NONPUBLIC_V4[i].Addresses().Contains(QuadValue(q))
  {
    var v := QuadValue(q);
    QuadParses(q);
    V4ListIsWellFormed();
    forall i | 0 <= i < |NONPUBLIC_V4|
      ensures Ipv4CidrContains(v, NONPUBLIC_V4[i].AsText()) <==> NONPUBLIC_V4[i].Addresses().Contains(v)
    {
      V4TestIsMembership(v, NONPUBLIC_V4[i]);
    }
  }

  /* ---- IPv6 ---- */

  /** A listed block: its base is written as one or two groups and "::". */
  datatype V6Block = V6Block(words: seq<string>, bits: nat) {
    function Form(): AddressText {
      Plain(Elided(words, []))
    }

    function AsText(): Block {
      Block(Form().Text(), bits)
    }

    predicate Valid() {
      Form().Valid() && bits <= 128
    }

    function Addresses(): Range
      requires Valid()
    {
      PrefixRange(Form().Meaning(), 128 - bits)
    }
  }

  const NONPUBLIC_V6: seq<V6Block> := [
    V6Block(["2001"], 32), V6Block(["2001", "2"], 48), V6Block(["2001", "10"], 28), V6Block(["2001", "20"], 28),
    V6Block(["2001", "db8"], 32), V6Block(["2002"], 16), V6Block(["3ffe"], 16)
  ]

  lemma V6ListIsWellFormed()
    ensures forall i :: 0 <= i < |NONPUBLIC_V6| ==> NONPUBLIC_V6[i].Valid()
  {
    forall i | 0 <= i < |NONPUBLIC_V6| ensures NONPUBLIC_V6[i].Valid() {
      assert AllWords(NONPUBLIC_V6[i].words);
    }
  }

  /** The addresses whose first three bits are 001, outside the listed blocks. */
  predicate IsPublicIpv6(address: string) {
    V6ListIsWellFormed();
    match Ipv6ToBigInt(address)
    case None => false
    case Some(v) =>
      && Quotient(v, Pow2(125)) == 1
      && !exists i :: 0 <= i < |NONPUBLIC_V6| && Ipv6CidrContains(v, NONPUBLIC_V6[i].AsText())
  }

  lemma {:induction false} LowerChangesNothing(s: string)
    requires AddressChars(s)
    ensures Lower(s) == s
  {
    assert forall i :: 0 <= i < |s| ==> LowerChar(s[i]) == s[i];
  }

  /** The IPv6 test is membership in the block's range, in whatever form the base
      is written. */
  lemma V6TestIsMembership(v: nat, t: AddressText, text: string, bits: nat)
    requires t.Valid() && bits <= 128 && text == t.Text()
    ensures Ipv6CidrContains(v, Block(text, bits)) == PrefixRange(t.Meaning(), 128 - bits).Contains(v)
  {
    BaseIsRead(t, text);
    V6TestOf(v, text, t.Meaning(), bits);
  }

  lemma BaseIsRead(t: AddressText, text: string)
    requires t.Valid() && text == t.Text()
    ensures Ipv6ToBigInt(text) == Some(t.Meaning())
  {
    TextChars(t);
    LowerChangesNothing(text);
    ReadsEveryForm(text, t);
  }

  lemma V6TestOf(v: nat, text: string, base: nat, bits: nat)
    requires bits <= 128 && Ipv6ToBigInt(text) == Some(base)
    ensures Ipv6CidrContains(v, Block(text, bits)) == PrefixRange(base, 128 - bits).Contains(v)
  {
    CidrIsARange(v, base, 128 - bits);
  }

  /** Whatever form an IPv6 address is written in, it is public exactly when it
      lies in 2000::/3 and outside the listed ranges. */
  lemma PublicV6IsTheComplement(address: string, t: AddressText)
    requires t.Valid() && Lower(address) == t.Text()
    ensures IsPublicIpv6(address) <==>
            && MultiplesOf(1, Pow2(125)).Contains(t.Meaning())
            && forall i :: 0 <= i < |NONPUBLIC_V6| ==>
                 NONPUBLIC_V6[i].Valid() && !NONPUBLIC_V6[i].Addresses().Contains(t.Meaning())
  {
    var v := t.Meaning();
    ReadsEveryForm(address, t);
    V6ListIsWellFormed();
    QuotientIs(v, Pow2(125), 1);
    forall i | 0 <= i < |NONPUBLIC_V6|
      ensures Ipv6CidrContains(v, NONPUBLIC_V6[i].AsText()) <==> NONPUBLIC_V6[i].Addresses().Contains(v)
    {
      var b := NONPUBLIC_V6[i];
      V6TestIsMembership(v, b.Form(), b.AsText().base, b.bits);
    }
  }

  /* ---- Approval ---- */

  predicate IsPublicAddress(isIP: string -> nat, address: string) {
    if isIP(address) == 4 then IsPublicIpv4(address)
    else if isIP(address) == 6 then IsPublicIpv6(address)
    else false
  }

  ghost predicate OutsideV4(q: Quad) {
    forall i :: 0 <= i < |NONPUBLIC_V4| ==>
      NONPUBLIC_V4[i].bits <= 32 && !NONPUBLIC_V4[i].Addresses().Contains(QuadValue(q))
  }

  ghost predicate OutsideV6(t: AddressText)
    requires t.Valid()
  {
    && MultiplesOf(1, Pow2(125)).Contains(t.Meaning())
    && forall i :: 0 <= i < |NONPUBLIC_V6| ==>
         NONPUBLIC_V6[i].Valid() && !NONPUBLIC_V6[i].Addresses().Contains(t.Meaning())
  }

  /** The text is that of an address outside every listed range. */
  ghost predicate SpellsPublicAddress(address: string) {
    || (exists q :: address == QuadText(q) && OutsideV4(q))
    || (exists t: AddressText :: t.Valid() && Lower(address) == t.Text() && OutsideV6(t))
  }

  /** Whatever the classification of the text says, a text that passes spells an
      address outside every listed range. */
  lemma PublicMeansOutsideTheRanges(isIP: string -> nat, address: string)
    requires IsPublicAddress(isIP, address)
    ensures SpellsPublicAddress(address)
  {
    if isIP(address) == 4 {
      var q := OnlyQuadsParse(address);
      PublicV4IsTheComplement(q);
      assert OutsideV4(q);
    } else {
      var t := AcceptsOnlyForms(address);
      PublicV6IsTheComplement(address, t);
      assert OutsideV6(t);
    }
  }

  datatype EgressError =
    | InvalidAuthority | IpLiteralForbidden | HostnameForbidden | PortForbidden
    | DnsFailed | DnsEmpty | AddressForbidden

  datatype HostPattern = HostPattern(hostname: string, includeSubdomains: bool)

  datatype Policy = Policy(hosts: seq<HostPattern>, httpPorts: set<int>, connectPorts: set<int>)

  datatype Answer = Answer(address: string, family: nat)

  datatype Approved = Approved(hostname: string, port: int, connect: bool, address: string, family: nat)

  predicate HostMatches(hostname: string, pattern: HostPattern) {
    if pattern.includeSubdomains then
      var suffix := "." + pattern.hostname;
      |hostname| > |pattern.hostname| && hostname[|hostname| - |suffix|..] == suffix
    else hostname == pattern.hostname
  }

  /** A pattern with a wildcard matches exactly the names that put something and a
      dot before its host name; one without matches that name only. */
  lemma PatternsMeanSubdomains(hostname: string, pattern: HostPattern)
    ensures HostMatches(hostname, pattern) <==>
              if pattern.includeSubdomains then exists front: string :: hostname == front + "." + pattern.hostname
              else hostname == pattern.hostname
  {
    var suffix := "." + pattern.hostname;
    if pattern.includeSubdomains && HostMatches(hostname, pattern) {
      var front := hostname[..|hostname| - |suffix|];
      assert hostname == front + "." + pattern.hostname;
    }
    if front: string :| hostname == front + "." + pattern.hostname {
      assert hostname[|hostname| - |suffix|..] == suffix;
    }
  }

  predicate Allowlisted(policy: Policy, hostname: string) {
    exists i :: 0 <= i < |policy.hosts| && HostMatches(hostname, policy.hosts[i])
  }

  /** The classification of address texts that an approval goes by. */
  datatype Judge = Judge(isIP: string -> nat, isPublic: string -> bool)

  /** The judge built from a classification of texts and the address tests. */
  function AddressJudge(isIP: string -> nat): Judge {
    Judge(isIP, address => IsPublicAddress(isIP, address))
  }

  predicate AnswerAllowed(judge: Judge, answer: Answer) {
    judge.isIP(answer.address) == answer.family && judge.isPublic(answer.address)
  }

  /** The error of a request that is refused, in the order of the checks. */
  function Refusal(policy: Policy, normalized: Result<string, EgressError>, judge: Judge,
                   port: int, connect: bool, lookup: Option<seq<Answer>>): Option<EgressError> {
    if normalized.Err? then Some(normalized.error)
    else if judge.isIP(normalized.value) != 0 then Some(IpLiteralForbidden)
    else if !Allowlisted(policy, normalized.value) then Some(HostnameForbidden)
    else if !(1 <= port <= 65535) then Some(InvalidAuthority)
    else if port !in (if connect then policy.connectPorts else policy.httpPorts) then Some(PortForbidden)
    else if lookup.None? then Some(DnsFailed)
    else if lookup.value == [] then Some(DnsEmpty)
    else if exists i :: 0 <= i < |lookup.value| && !AnswerAllowed(judge, lookup.value[i]) then Some(AddressForbidden)
    else None
  }

  /** Some pattern is the name itself, or a wildcard the name extends by a front and a dot. */
  ghost predicate Listed(policy: Policy, hostname: string) {
    exists p :: p in policy.hosts &&
      if p.includeSubdomains then exists front: string :: hostname == front + "." + p.hostname else hostname == p.hostname
  }

  /** The name is listed and no address, and the port is open for the protocol. */
  ghost predicate MayBeAsked(policy: Policy, hostname: string, isIP: string -> nat, port: int, connect: bool) {
    && isIP(hostname) == 0 && Listed(policy, hostname)
    && 1 <= port <= 65535 && (if connect then port in policy.connectPorts else port in policy.httpPorts)
  }

  lemma AllowlistedMeansListed(policy: Policy, hostname: string)
    ensures Allowlisted(policy, hostname) <==> Listed(policy, hostname)
  {
    forall p ensures HostMatches(hostname, p) <==>
        if p.includeSubdomains then exists front: string :: hostname == front + "." + p.hostname else hostname == p.hostname
    {
      PatternsMeanSubdomains(hostname, p);
    }
    if Listed(policy, hostname) {
      var p :| p in policy.hosts && HostMatches(hostname, p);
      assert exists i :: 0 <= i < |policy.hosts| && policy.hosts[i] == p;
    }
  }

  /** Nothing is refused exactly when the name and the port may be asked for and every one
      of the answers, of which there are some, is allowed. */
  lemma PermittedExactly(policy: Policy, normalized: Result<string, EgressError>, judge: Judge,
                         port: int, connect: bool, lookup: Option<seq<Answer>>)
    ensures Refusal(policy, normalized, judge, port, connect, lookup).None? <==>
              normalized.Ok? && MayBeAsked(policy, normalized.value, judge.isIP, port, connect)
              && lookup.Some? && lookup.value != [] && forall a :: a in lookup.value ==> AnswerAllowed(judge, a)
  {
    if normalized.Ok? { AllowlistedMeansListed(policy, normalized.value); }
  }

  /** The error of a refusal names the first thing that is wrong. */
  lemma RefusedFor(policy: Policy, hostname: string, judge: Judge, port: int, connect: bool, lookup: Option<seq<Answer>>)
    ensures var refusal := Refusal(policy, Ok(hostname), judge, port, connect, lookup);
      var mayBeAsked := MayBeAsked(policy, hostname, judge.isIP, port, connect);
      && (refusal == Some(IpLiteralForbidden) <==> judge.isIP(hostname) != 0)
      && (refusal == Some(HostnameForbidden) <==> judge.isIP(hostname) == 0 && !Listed(policy, hostname))
      && (refusal == Some(InvalidAuthority) <==> judge.isIP(hostname) == 0 && Listed(policy, hostname) && !(1 <= port <= 65535))
      && (refusal == Some(PortForbidden) <==>
            !mayBeAsked && judge.isIP(hostname) == 0 && Listed(policy, hostname) && 1 <= port <= 65535)
      && (refusal == Some(DnsFailed) <==> mayBeAsked && lookup.None?)
      && (refusal == Some(DnsEmpty) <==> mayBeAsked && lookup == Some([]))
      && (refusal == Some(AddressForbidden) <==>
            mayBeAsked && lookup.Some? && exists a :: a in lookup.value && !AnswerAllowed(judge, a))
  {
    AllowlistedMeansListed(policy, hostname);
    if lookup.Some? {
      if a :| a in lookup.value && !AnswerAllowed(judge, a) {
        assert exists i :: 0 <= i < |lookup.value| && lookup.value[i] == a;
      }
    }
  }

  /** One approval. `normalized` is the outcome of normalising the host name and
      `lookup` that of the name resolution, which fails when it takes too long. */
  method Approve(policy: Policy, normalized: Result<string, EgressError>, judge: Judge,
                 port: int, connect: bool, lookup: Option<seq<Answer>>)
    returns (r: Result<Approved, EgressError>)
    ensures match Refusal(policy, normalized, judge, port, connect, lookup)
            case Some(e) => r == Err(e)
            case None =>
              r == Ok(Approved(normalized.value, port, connect, lookup.value[0].address, lookup.value[0].family))
    ensures r.Ok? <==>
              normalized.Ok? && MayBeAsked(policy, normalized.value, judge.isIP, port, connect)
              && lookup.Some? && lookup.value != [] && forall a :: a in lookup.value ==> AnswerAllowed(judge, a)
  {
    PermittedExactly(policy, normalized, judge, port, connect, lookup);
    if normalized.Err? {
      return Err(normalized.error);
    }
    var hostname := normalized.value;
    if judge.isIP(hostname) != 0 {
      return Err(IpLiteralForbidden);
    }
    var matched := false;
    for i := 0 to |policy.hosts|
      invariant matched <==> exists j :: 0 <= j < i && HostMatches(hostname, policy.hosts[j])
    {
      if HostMatches(hostname, policy.hosts[i]) {
        matched := true;
      }
    }
    if !matched {
      return Err(HostnameForbidden);
    }
    if port < 1 || port > 65535 {
      return Err(InvalidAuthority);
    }
    var ports := if connect then policy.connectPorts else policy.httpPorts;
    if port !in ports {
      return Err(PortForbidden);
    }
    if lookup.None? {
      return Err(DnsFailed);
    }
    var answers := lookup.value;
    if answers == [] {
      return Err(DnsEmpty);
    }
    for i := 0 to |answers|
      invariant forall j :: 0 <= j < i ==> AnswerAllowed(judge, answers[j])
    {
      if judge.isIP(answers[i].address) != answers[i].family || !judge.isPublic(answers[i].address) {
        assert !AnswerAllowed(judge, answers[i]);
        return Err(AddressForbidden);
      }
    }
    r := Ok(Approved(hostname, port, connect, answers[0].address, answers[0].family));
  }

  /** The answer is of its stated family and spells an address outside every listed range. */
  ghost predicate PublicAnswer(isIP: string -> nat, a: Answer) {
    && isIP(a.address) == a.family
    && if a.family == 4 then exists q :: a.address == QuadText(q) && OutsideV4(q)
       else a.family == 6 && exists t: AddressText :: t.Valid() && Lower(a.address) == t.Text() && OutsideV6(t)
  }

  lemma PublicV4Exactly(address: string)
    ensures IsPublicIpv4(address) <==> exists q :: address == QuadText(q) && OutsideV4(q)
  {
    if IsPublicIpv4(address) {
      var q := OnlyQuadsParse(address);
      PublicV4IsTheComplement(q);
      assert OutsideV4(q);
    }
    if q :| address == QuadText(q) && OutsideV4(q) { PublicV4IsTheComplement(q); }
  }

  lemma PublicV6Exactly(address: string)
    ensures IsPublicIpv6(address) <==> exists t: AddressText :: t.Valid() && Lower(address) == t.Text() && OutsideV6(t)
  {
    if IsPublicIpv6(address) {
      var t := AcceptsOnlyForms(address);
      PublicV6IsTheComplement(address, t);
      assert OutsideV6(t);
    }
    if t: AddressText :| t.Valid() && Lower(address) == t.Text() && OutsideV6(t) { PublicV6IsTheComplement(address, t); }
  }

  lemma AllowedMeansPublic(isIP: string -> nat, a: Answer)
    ensures AnswerAllowed(AddressJudge(isIP), a) <==> PublicAnswer(isIP, a)
  {
    PublicV4Exactly(a.address);
    PublicV6Exactly(a.address);
  }

  /** With the classification of texts that the address tests go by, a destination is
      approved exactly when its name is no address and listed, its port is open for the
      protocol, and every answer, of which there are some, is of its stated family and
      spells an address outside the listed ranges. */
  lemma ApprovedExactly(policy: Policy, normalized: Result<string, EgressError>, isIP: string -> nat,
                        port: int, connect: bool, lookup: Option<seq<Answer>>)
    ensures Refusal(policy, normalized, AddressJudge(isIP), port, connect, lookup).None? <==>
              normalized.Ok? && MayBeAsked(policy, normalized.value, isIP, port, connect)
              && lookup.Some? && lookup.value != [] && forall a :: a in lookup.value ==> PublicAnswer(isIP, a)
  {
    PermittedExactly(policy, normalized, AddressJudge(isIP), port, connect, lookup);
    forall a ensures AnswerAllowed(AddressJudge(isIP), a) <==> PublicAnswer(isIP, a) { AllowedMeansPublic(isIP, a); }
  }

  /** An approval means that every answer, the one connected to and all the others,
      is an address outside the listed ranges. */
  lemma ApprovalMeansAllAnswersArePublic(policy: Policy, normalized: Result<string, EgressError>, isIP: string -> nat,
                                         port: int, connect: bool, lookup: Option<seq<Answer>>, i: nat)
    requires Refusal(policy, normalized, AddressJudge(isIP), port, connect, lookup).None? && i < |lookup.value|
    ensures isIP(lookup.value[i].address) == lookup.value[i].family && SpellsPublicAddress(lookup.value[i].address)
  {
    assert AnswerAllowed(AddressJudge(isIP), lookup.value[i]);
    PublicMeansOutsideTheRanges(isIP, lookup.value[i].address);
  }
}

/**
 The computers this one trusts: hex keys and learned addresses
 (PeerConfig in src/config.rs) and the named table of them (trust_peer and
 replace_key in src/hello.rs).
 */
module Trust {
  import opened Wrappers

  const MAX_PEER_ADDRESSES := 8
  const MAX_SPKI := 2_048

  // ----- keys as hex

  newtype byte = x: int | 0 <= x < 256

  function Digit(n: int): char
    requires 0 <= n < 16
  {
    "0123456789abcdef"[n]
  }

  function EncodeHex(bytes: seq<byte>): string {
    if bytes == [] then [] else [Digit(bytes[0] as int / 16), Digit(bytes[0] as int % 16)] + EncodeHex(bytes[1..])
  }

  function HexDigit(c: char): Option<int> {
    if '0' <= c <= '9' then Some(c as int - '0' as int)
    else if 'a' <= c <= 'f' then Some(c as int - 'a' as int + 10)
    else if 'A' <= c <= 'F' then Some(c as int - 'A' as int + 10)
    else None
  }

  function DecodeHex(text: string): Option<seq<byte>> {
    if text == [] then Some([])
    else if |text| == 1 then None
    else
      var (high, low, rest) := (HexDigit(text[0]), HexDigit(text[1]), DecodeHex(text[2..]));
      if high.None? || low.None? || rest.None? then None
      else Some([(high.value * 16 + low.value) as byte] + rest.value)
  }

  lemma DigitRoundTrip(n: int)
    requires 0 <= n < 16
    ensures HexDigit(Digit(n)) == Some(n)
  {
  }

  lemma DecodesByte(text: string, n: int, rest: seq<byte>)
    requires |text| >= 2 && 0 <= n < 256
    requires HexDigit(text[0]) == Some(n / 16) && HexDigit(text[1]) == Some(n % 16) && DecodeHex(text[2..]) == Some(rest)
    ensures DecodeHex(text) == Some([n as byte] + rest)
  {
    assert n / 16 * 16 + n % 16 == n;
  }

  /** What a key is written as reads back as that key, so two keys are never written alike. */
  lemma {:induction false} HexRoundTrip(bytes: seq<byte>)
    ensures DecodeHex(EncodeHex(bytes)) == Some(bytes)
  {
    if bytes != [] {
      var (n, text) := (bytes[0] as int, EncodeHex(bytes));
      HexRoundTrip(bytes[1..]);
      DigitRoundTrip(n / 16);
      DigitRoundTrip(n % 16);
      assert text[2..] == EncodeHex(bytes[1..]);
      DecodesByte(text, n, bytes[1..]);
      assert bytes == [bytes[0]] + bytes[1..];
    }
  }

  // ----- learned addresses

  datatype Ip = V4(bits: nat) | V6(bits: nat)

  const MAPPED := 0xFFFF_0000_0000

  /** IpAddr::to_canonical: an IPv4-mapped IPv6 address is that IPv4 address. */
  function Canonical(ip: Ip): Ip {
    if ip.V6? && MAPPED <= ip.bits < MAPPED + 0x1_0000_0000 then V4(ip.bits - MAPPED) else ip
  }

  datatype Address = Address(ip: Ip, port: nat, scope: nat)

  /** An IPv6 address keeps its interface scope. */
  function Tidied(a: Address): Address {
    if Canonical(a.ip).V4? then Address(Canonical(a.ip), a.port, 0) else a
  }

  predicate HasIp(addresses: seq<Address>, ip: Ip) {
    exists i :: 0 <= i < |addresses| && addresses[i].ip == ip
  }

  /** One more address heard: kept unless its IP was heard before. */
  function Heard(known: seq<Address>, address: Address): seq<Address> {
    if HasIp(known, Tidied(address).ip) then known else known + [Tidied(address)]
  }

  /** The first address of each IP, in the order heard. */
  function FirstOfEach(heard: seq<Address>): seq<Address> {
    if heard == [] then [] else Heard(FirstOfEach(heard[..|heard| - 1]), heard[|heard| - 1])
  }

  predicate Tidy(addresses: seq<Address>) {
    && (forall i :: 0 <= i < |addresses| ==> Tidied(addresses[i]) == addresses[i])
    && (forall i, j :: 0 <= i < j < |addresses| ==> addresses[i].ip != addresses[j].ip)
  }

  lemma {:induction false} FirstOfEachIsTidy(heard: seq<Address>)
    ensures Tidy(FirstOfEach(heard))
  {
    if heard != [] {
      FirstOfEachIsTidy(heard[..|heard| - 1]);
    }
  }

  lemma {:induction false} FirstOfEachHasAll(heard: seq<Address>)
    ensures forall k :: 0 <= k < |heard| ==> HasIp(FirstOfEach(heard), Tidied(heard[k]).ip)
  {
    if heard != [] {
      var before := heard[..|heard| - 1];
      FirstOfEachHasAll(before);
      var all := FirstOfEach(heard);
      assert FirstOfEach(before) <= all;
      forall k | 0 <= k < |heard| ensures HasIp(all, Tidied(heard[k]).ip) {
        if k < |before| {
          assert HasIp(FirstOfEach(before), Tidied(before[k]).ip);
          var i :| 0 <= i < |FirstOfEach(before)| && FirstOfEach(before)[i].ip == Tidied(before[k]).ip;
          assert all[i].ip == Tidied(heard[k]).ip;
        } else if !HasIp(FirstOfEach(before), Tidied(heard[k]).ip) {
          assert all[|all| - 1] == Tidied(heard[k]);
        }
      }
    }
  }

  function Newest(addresses: seq<Address>): seq<Address> {
    if |addresses| <= MAX_PEER_ADDRESSES then addresses else addresses[..MAX_PEER_ADDRESSES]
  }

  function Learned(newest: seq<Address>, saved: seq<Address>): seq<Address> {
    Newest(FirstOfEach(newest + saved))
  }

  method LearnAddresses(newest: seq<Address>, saved: seq<Address>) returns (learned: seq<Address>, changed: bool)
    ensures learned == Learned(newest, saved) && (changed <==> learned != saved)
    ensures |learned| <= MAX_PEER_ADDRESSES
    ensures forall i, j :: 0 <= i < j < |learned| ==> learned[i].ip != learned[j].ip
    ensures Newest(FirstOfEach(newest)) <= learned
  {
    learned := [];
    var heard := newest + saved;
    for k := 0 to |heard|
      invariant learned == FirstOfEach(heard[..k])
    {
      assert heard[..k + 1][..k] == heard[..k];
      var address := Tidied(heard[k]);
      if !HasIp(learned, address.ip) {
        learned := learned + [address];
      }
    }
    assert heard[..|heard|] == heard;
    FirstOfEachIsTidy(heard);
    EarlierComeFirst(newest, saved);
    learned := Newest(learned);
    changed := learned != saved;
  }

  /** Addresses heard earlier come first, whatever is heard after. */
  lemma {:induction false} EarlierComeFirst(a: seq<Address>, b: seq<Address>)
    ensures FirstOfEach(a) <= FirstOfEach(a + b)
  {
    if b == [] {
      assert a + b == a;
    } else {
      EarlierComeFirst(a, b[..|b| - 1]);
      assert (a + b)[..|a + b| - 1] == a + b[..|b| - 1];
    }
  }

  /** Short of the limit, every IP heard from is kept. */
  lemma LearnedKeepsAll(newest: seq<Address>, saved: seq<Address>, k: nat)
    requires k < |newest + saved| && |Learned(newest, saved)| < MAX_PEER_ADDRESSES
    ensures HasIp(Learned(newest, saved), Tidied((newest + saved)[k]).ip)
  {
    FirstOfEachHasAll(newest + saved);
  }

  /** An address whose IP is known adds nothing, and a tidy one whose IP is not is added. */
  lemma HeardTidy(known: seq<Address>, address: Address)
    requires Tidied(address) == address
    ensures Heard(known, address) == if HasIp(known, address.ip) then known else known + [address]
  {
  }

  lemma LastIsNew(addresses: seq<Address>)
    requires Tidy(addresses) && addresses != []
    ensures !HasIp(addresses[..|addresses| - 1], addresses[|addresses| - 1].ip)
    ensures addresses == addresses[..|addresses| - 1] + [addresses[|addresses| - 1]]
  {
  }

  /** Hearing again what was heard, then tidy addresses that start with it, adds just the rest. */
  lemma {:induction false} HeardAgain(a: seq<Address>, more: seq<Address>)
    requires Tidy(more)
    requires if |more| <= |FirstOfEach(a)| then more <= FirstOfEach(a) else FirstOfEach(a) <= more
    ensures FirstOfEach(a + more) == if |more| <= |FirstOfEach(a)| then FirstOfEach(a) else more
  {
    if more == [] {
      assert a + more == a;
    } else {
      var first := FirstOfEach(a);
      var (less, last) := (more[..|more| - 1], more[|more| - 1]);
      assert (a + more)[..|a + more| - 1] == a + less;
      HeardAgain(a, less);
      HeardTidy(FirstOfEach(a + less), last);
      if |more| <= |first| {
        assert first[|more| - 1] == last;
        assert HasIp(first, last.ip);
      } else {
        LastIsNew(more);
        assert FirstOfEach(a + less) == less;
      }
    }
  }

  /** Learning the same addresses again changes nothing. */
  lemma LearnedAgain(newest: seq<Address>, saved: seq<Address>)
    ensures Learned(newest, Learned(newest, saved)) == Learned(newest, saved)
  {
    var (first, all) := (FirstOfEach(newest), FirstOfEach(newest + saved));
    EarlierComeFirst(newest, saved);
    FirstOfEachIsTidy(newest + saved);
    assert Tidy(Newest(all));
    HeardAgain(newest, Newest(all));
  }

  // ----- the table of trusted computers

  datatype Permissions = Permissions(connect: bool, sendNormal: bool, receiveNormal: bool, injectPrelogin: bool)

  const DEFAULT_PERMISSIONS := Permissions(true, true, true, false)

  datatype Peer = Peer(hex: string, addresses: seq<Address>, permissions: Permissions, standardKeyboard: bool, reverseScroll: bool, shareScreen: bool)

  type Peers = map<string, Peer>

  predicate ValidSpki(spki: seq<byte>) {
    1 <= |spki| <= MAX_SPKI
  }

  function NewPeer(spki: seq<byte>, addresses: seq<Address>): Peer {
    Peer(EncodeHex(spki), Learned(addresses, []), DEFAULT_PERMISSIONS, true, false, false)
  }

  /** Two saved computers never have one key, as validate_peer_identities demands of every config. */
  ghost predicate UniqueKeys(peers: Peers) {
    forall a, b :: a in peers && b in peers && a != b ==> DecodeHex(peers[a].hex) != DecodeHex(peers[b].hex)
  }

  ghost predicate Holds(peers: Peers, name: string, hex: string) {
    name in peers && peers[name].hex == hex
  }

  // ----- a free name

  function Decimal(n: nat): string {
    if n < 10 then [Digit(n)] else Decimal(n / 10) + [Digit(n % 10)]
  }

  lemma {:induction false} DecimalInjective(a: nat, b: nat)
    requires Decimal(a) == Decimal(b)
    ensures a == b
  {
    var (x, y) := (Decimal(a), Decimal(b));
    assert x[|x| - 1] == Digit(a % 10) && y[|y| - 1] == Digit(b % 10);
    DigitRoundTrip(a % 10);
    DigitRoundTrip(b % 10);
    DecimalNotEmpty(a / 10);
    DecimalNotEmpty(b / 10);
    if a >= 10 && b >= 10 {
      assert x[..|x| - 1] == Decimal(a / 10) && y[..|y| - 1] == Decimal(b / 10);
      DecimalInjective(a / 10, b / 10);
    }
  }

  lemma DecimalNotEmpty(n: nat)
    ensures |Decimal(n)| >= 1
  {
  }

  /** The names tried for a computer that calls itself `base`, whose key starts with `short`. */
  function Candidate(base: string, short: string, k: nat): string {
    if k == 0 then base
    else
      var marked := base + " (" + short + ")";
      if k == 1 then marked else marked + " " + Decimal(k)
  }

  lemma CandidatesDiffer(base: string, short: string, i: nat, j: nat)
    requires i < j
    ensures Candidate(base, short, i) != Candidate(base, short, j)
  {
    var marked := base + " (" + short + ")";
    if i >= 2 {
      var (a, b) := (marked + " " + Decimal(i), marked + " " + Decimal(j));
      assert a[|marked| + 1..] == Decimal(i) && b[|marked| + 1..] == Decimal(j);
      if a == b { DecimalInjective(i, j); }
    } else if i == 1 {
      assert |Candidate(base, short, j)| > |marked|;
    } else {
      assert |Candidate(base, short, j)| >= |marked| > |base|;
    }
  }

  ghost predicate AllDiffer(names: nat -> string) {
    forall i: nat, j: nat :: i < j ==> names(i) != names(j)
  }

  function Tried(names: nat -> string, k: nat): set<string> {
    if k == 0 then {} else Tried(names, k - 1) + {names(k - 1)}
  }

  lemma {:induction false} NotYetTried(names: nat -> string, k: nat, later: nat)
    requires AllDiffer(names) && k <= later
    ensures names(later) !in Tried(names, k)
  {
    if k > 0 {
      NotYetTried(names, k - 1, later);
    }
  }

  lemma {:induction false} TriedGrows(names: nat -> string, k: nat)
    requires AllDiffer(names)
    ensures |Tried(names, k)| == k
  {
    if k > 0 {
      TriedGrows(names, k - 1);
      NotYetTried(names, k - 1, k - 1);
    }
  }

  lemma TriedFits(taken: set<string>, names: nat -> string, k: nat)
    requires AllDiffer(names) && Tried(names, k) <= taken
    ensures k <= |taken|
  {
    TriedGrows(names, k);
    assert taken == Tried(names, k) + (taken - Tried(names, k));
  }

  /** The first of `names` not taken: the search ends by the time it has met every taken one. */
  function FreeIndex(taken: set<string>, names: nat -> string, k: nat): (r: nat)
    requires AllDiffer(names) && Tried(names, k) <= taken
    ensures k <= r <= |taken|
    ensures names(r) !in taken
    ensures forall i: nat :: k <= i < r ==> names(i) in taken
    decreases |taken| - k
  {
    TriedFits(taken, names, k);
    if names(k) !in taken then k
    else
      TriedFits(taken, names, k + 1);
      FreeIndex(taken, names, k + 1)
  }

  lemma CandidatesAllDiffer(base: string, short: string)
    ensures AllDiffer((k: nat) => Candidate(base, short, k))
  {
    forall i: nat, j: nat | i < j ensures Candidate(base, short, i) != Candidate(base, short, j) {
      CandidatesDiffer(base, short, i, j);
    }
  }

  /** The first candidate no saved computer has. */
  function FreeName(peers: Peers, base: string, short: string): (r: string)
    ensures r !in peers
    ensures base !in peers ==> r == base
    ensures base in peers && base + " (" + short + ")" !in peers ==> r == base + " (" + short + ")"
    ensures exists n: nat :: r == Candidate(base, short, n) && forall i: nat :: i < n ==> Candidate(base, short, i) in peers
  {
    CandidatesAllDiffer(base, short);
    var names := (k: nat) => Candidate(base, short, k);
    var n := FreeIndex(peers.Keys, names, 0);
    assert forall i: nat :: i < n ==> Candidate(base, short, i) == names(i);
    assert n > 0 ==> Candidate(base, short, 0) in peers;
    assert n > 1 ==> Candidate(base, short, 1) in peers;
    Candidate(base, short, n)
  }

  // ----- trusting and replacing

  function Learn(peer: Peer, addresses: seq<Address>): Peer {
    peer.(addresses := Learned(addresses, peer.addresses))
  }

  /** What trust_peer leaves, given the name it returns. */
  ghost predicate Trusted(peers: Peers, spki: seq<byte>, base: string, short: string, addresses: seq<Address>,
                          name: string, after: Peers) {
    if exists n :: Holds(peers, n, EncodeHex(spki))
    then Holds(peers, name, EncodeHex(spki)) && after == peers[name := Learn(peers[name], addresses)]
    else name == FreeName(peers, base, short) && after == peers[name := NewPeer(spki, addresses)]
  }

  /** A saved copy of this key that from_spki did not write, such as one in capitals. */
  ghost predicate WrittenOtherwise(peers: Peers, spki: seq<byte>) {
    exists n :: n in peers && DecodeHex(peers[n].hex) == Some(spki) && peers[n].hex != EncodeHex(spki)
  }

  /**
   Trusting keeps keys unique exactly when the key is not saved in another
   spelling: the search compares spellings, not keys.
   */
  lemma TrustKeepsKeysUnique(peers: Peers, spki: seq<byte>, base: string, short: string, addresses: seq<Address>,
                             name: string, after: Peers)
    requires UniqueKeys(peers) && Trusted(peers, spki, base, short, addresses, name, after)
    ensures UniqueKeys(after) <==> !WrittenOtherwise(peers, spki)
  {
    HexRoundTrip(spki);
    if exists n :: Holds(peers, n, EncodeHex(spki)) {
      forall n | n in peers && DecodeHex(peers[n].hex) == Some(spki) ensures peers[n].hex == EncodeHex(spki) {
        assert n == name;
      }
      forall a, b | a in after && b in after && a != b ensures DecodeHex(after[a].hex) != DecodeHex(after[b].hex) {
        assert after[a].hex == peers[a].hex && after[b].hex == peers[b].hex;
      }
    } else if WrittenOtherwise(peers, spki) {
      var n :| n in peers && DecodeHex(peers[n].hex) == Some(spki) && peers[n].hex != EncodeHex(spki);
      assert after[n].hex == peers[n].hex && after[name].hex == EncodeHex(spki) && n != name;
    } else {
      forall n | n in peers ensures DecodeHex(peers[n].hex) != Some(spki) {
        assert !Holds(peers, n, EncodeHex(spki));
      }
    }
  }

  /** Trusting the same key and addresses again answers the same name and changes nothing. */
  lemma TrustAgainChangesNothing(peers: Peers, spki: seq<byte>, base: string, short: string, addresses: seq<Address>,
                                 name: string, after: Peers, again: string, last: Peers)
    requires UniqueKeys(after)
    requires Trusted(peers, spki, base, short, addresses, name, after)
    requires Trusted(after, spki, base, short, addresses, again, last)
    ensures again == name && last == after
  {
    assert Holds(after, name, EncodeHex(spki));
    assert Holds(after, again, EncodeHex(spki));
    LearnedAgain(addresses, if name in peers then peers[name].addresses else []);
    assert Learn(after[name], addresses) == after[name];
  }

  // ----- every sequence of calls

  /** A saved computer as from_spki and learn_addresses write it. */
  ghost predicate WellWritten(peer: Peer) {
    && DecodeHex(peer.hex).Some? && ValidSpki(DecodeHex(peer.hex).value) && EncodeHex(DecodeHex(peer.hex).value) == peer.hex
    && Tidy(peer.addresses) && |peer.addresses| <= MAX_PEER_ADDRESSES
  }

  /** No key twice, each in its one spelling, with at most MAX_PEER_ADDRESSES addresses of distinct IPs. */
  ghost predicate SoundPeers(peers: Peers) {
    UniqueKeys(peers) && forall n :: n in peers ==> WellWritten(peers[n])
  }

  lemma LearnedIsTidy(newest: seq<Address>, saved: seq<Address>)
    ensures Tidy(Learned(newest, saved)) && |Learned(newest, saved)| <= MAX_PEER_ADDRESSES
  {
    FirstOfEachIsTidy(newest + saved);
  }

  lemma NotWrittenOtherwise(peers: Peers, spki: seq<byte>)
    requires forall n :: n in peers ==> WellWritten(peers[n])
    ensures !WrittenOtherwise(peers, spki)
  {
  }

  lemma TrustKeepsSound(peers: Peers, spki: seq<byte>, base: string, short: string, addresses: seq<Address>,
                        name: string, after: Peers)
    requires SoundPeers(peers) && ValidSpki(spki) && Trusted(peers, spki, base, short, addresses, name, after)
    ensures SoundPeers(after)
  {
    HexRoundTrip(spki);
    NotWrittenOtherwise(peers, spki);
    TrustKeepsKeysUnique(peers, spki, base, short, addresses, name, after);
    LearnedIsTidy(addresses, if name in peers then peers[name].addresses else []);
    assert WellWritten(after[name]);
  }

  lemma ReplaceKeepsSound(peers: Peers, name: string, spki: seq<byte>, addresses: seq<Address>)
    requires SoundPeers(peers) && ValidSpki(spki) && name in peers && !TakenByOther(peers, name, EncodeHex(spki))
    ensures SoundPeers(peers[name := Rekeyed(peers[name], EncodeHex(spki), addresses)])
  {
    HexRoundTrip(spki);
    NotWrittenOtherwise(peers - {name}, spki);
    ReplaceKeepsKeysUnique(peers, name, spki, addresses);
    LearnedIsTidy(addresses, peers[name].addresses);
    LearnedIsTidy(addresses, []);
    assert WellWritten(Rekeyed(peers[name], EncodeHex(spki), addresses));
  }

  datatype Call =
    | TrustPeer(spki: seq<byte>, base: string, short: string, addresses: seq<Address>)
    | ReplaceKey(name: string, spki: seq<byte>, addresses: seq<Address>)

  /** What a call leaves: a refused one nothing new. */
  ghost predicate Leaves(peers: Peers, call: Call, after: Peers) {
    match call
    case TrustPeer(spki, base, short, addresses) =>
      if ValidSpki(spki) then exists name :: Trusted(peers, spki, base, short, addresses, name, after) else after == peers
    case ReplaceKey(name, spki, addresses) =>
      if ValidSpki(spki) && name in peers && !TakenByOther(peers, name, EncodeHex(spki))
      then after == peers[name := Rekeyed(peers[name], EncodeHex(spki), addresses)] else after == peers
  }

  lemma CallKeepsSound(peers: Peers, call: Call, after: Peers)
    requires SoundPeers(peers) && Leaves(peers, call, after)
    ensures SoundPeers(after)
  {
    match call
    case TrustPeer(spki, base, short, addresses) =>
      if ValidSpki(spki) {
        var name :| Trusted(peers, spki, base, short, addresses, name, after);
        TrustKeepsSound(peers, spki, base, short, addresses, name, after);
      }
    case ReplaceKey(name, spki, addresses) =>
      if ValidSpki(spki) && name in peers && !TakenByOther(peers, name, EncodeHex(spki)) {
        ReplaceKeepsSound(peers, name, spki, addresses);
      }
  }

  /** `tables` are what each call of the sequence found and the last one left. */
  ghost predicate Sequence(calls: seq<Call>, tables: seq<Peers>) {
    |tables| == |calls| + 1 && forall k :: 0 <= k < |calls| ==> Leaves(tables[k], calls[k], tables[k + 1])
  }

  lemma NthLeaves(calls: seq<Call>, tables: seq<Peers>, n: nat)
    requires Sequence(calls, tables) && n < |calls|
    ensures Leaves(tables[n], calls[n], tables[n + 1])
  {
  }

  /** Every sequence of calls keeps every table of a sound one sound, so keys stay unique throughout. */
  lemma {:induction false} SequenceKeepsSound(calls: seq<Call>, tables: seq<Peers>, n: nat)
    requires Sequence(calls, tables) && SoundPeers(tables[0]) && n < |tables|
    ensures SoundPeers(tables[n])
  {
    if n > 0 {
      SequenceKeepsSound(calls, tables, n - 1);
      NthLeaves(calls, tables, n - 1);
      CallKeepsSound(tables[n - 1], calls[n - 1], tables[n]);
    }
  }

  /** The computers saved in this configuration. */
  class Config {
    var peers: Peers

    ghost predicate Valid()
      reads this
    {
      SoundPeers(peers)
    }

    constructor ()
      ensures peers == map[] && Valid()
    {
      peers := map[];
    }

    method TrustPeer(spki: seq<byte>, base: string, short: string, addresses: seq<Address>) returns (r: Option<string>)
      modifies this
      ensures r.None? ==> !ValidSpki(spki) && peers == old(peers)
      ensures r.Some? ==> ValidSpki(spki) && Trusted(old(peers), spki, base, short, addresses, r.value, peers)
      ensures old(Valid()) ==> Valid()
    {
      if !ValidSpki(spki) {
        return None;
      }
      var name, after := SaveTrusted(peers, spki, base, short, addresses);
      if Valid() { TrustKeepsSound(peers, spki, base, short, addresses, name, after); }
      peers := after;
      return Some(name);
    }

    /** A new key for a saved computer, refused when another one has it. */
    method ReplaceKey(name: string, spki: seq<byte>, addresses: seq<Address>) returns (ok: bool)
      modifies this
      ensures ok <==> ValidSpki(spki) && name in old(peers) && !TakenByOther(old(peers), name, EncodeHex(spki))
      ensures !ok ==> peers == old(peers)
      ensures ok ==> peers == old(peers)[name := Rekeyed(old(peers)[name], EncodeHex(spki), addresses)]
      ensures old(Valid()) ==> Valid()
    {
      if !ValidSpki(spki) || TakenByOther(peers, name, EncodeHex(spki)) || name !in peers {
        return false;
      }
      var rekeyed := SaveRekeyed(peers[name], EncodeHex(spki), addresses);
      if Valid() { ReplaceKeepsSound(peers, name, spki, addresses); }
      peers := peers[name := rekeyed];
      return true;
    }
  }

  method SaveTrusted(peers: Peers, spki: seq<byte>, base: string, short: string, addresses: seq<Address>)
      returns (name: string, after: Peers)
    ensures Trusted(peers, spki, base, short, addresses, name, after)
  {
    var hex := EncodeHex(spki);
    if saved :| saved in peers && peers[saved].hex == hex {
      var learned, changed := LearnAddresses(addresses, peers[saved].addresses);
      assert Holds(peers, saved, hex);
      return saved, peers[saved := peers[saved].(addresses := learned)];
    }
    assert forall n :: !Holds(peers, n, hex);
    var learned, changed := LearnAddresses(addresses, []);
    name := FreeName(peers, base, short);
    after := peers[name := Peer(hex, learned, DEFAULT_PERMISSIONS, true, false, false)];
  }

  method SaveRekeyed(peer: Peer, hex: string, addresses: seq<Address>) returns (r: Peer)
    ensures r == Rekeyed(peer, hex, addresses)
  {
    r := peer;
    if r.hex != hex {
      r := r.(hex := hex, permissions := r.permissions.(injectPrelogin := false), addresses := []);
    }
    var learned, changed := LearnAddresses(addresses, r.addresses);
    r := r.(addresses := learned);
  }

  predicate TakenByOther(peers: Peers, name: string, hex: string) {
    exists other :: other in peers && other != name && peers[other].hex == hex
  }

  /** A new key forgets where the old one answered and what was granted to it alone; the same key only learns. */
  function Rekeyed(peer: Peer, hex: string, addresses: seq<Address>): Peer {
    if peer.hex == hex then Learn(peer, addresses)
    else Learn(peer.(hex := hex, permissions := peer.permissions.(injectPrelogin := false), addresses := []), addresses)
  }

  /** What is learned comes from what was given. */
  lemma {:induction false} HeardFrom(heard: seq<Address>, a: Address)
    requires a in FirstOfEach(heard)
    ensures exists k :: 0 <= k < |heard| && Tidied(heard[k]) == a
  {
    if heard != [] {
      var last := |heard| - 1;
      if a in FirstOfEach(heard[..last]) {
        HeardFrom(heard[..last], a);
        var k :| 0 <= k < last && Tidied(heard[..last][k]) == a;
        assert Tidied(heard[k]) == a;
      }
    }
  }

  /** A new key loses pre-login input and every address its old one had; a repeated one keeps its permissions. */
  lemma NewKeyForgets(peer: Peer, hex: string, addresses: seq<Address>)
    ensures var r := Rekeyed(peer, hex, addresses);
      && r.hex == hex
      && (r.permissions.connect, r.permissions.sendNormal, r.permissions.receiveNormal) ==
         (peer.permissions.connect, peer.permissions.sendNormal, peer.permissions.receiveNormal)
      && (r.standardKeyboard, r.reverseScroll, r.shareScreen) == (peer.standardKeyboard, peer.reverseScroll, peer.shareScreen)
      && (peer.hex == hex ==> r.permissions == peer.permissions)
      && (peer.hex != hex ==>
            && !r.permissions.injectPrelogin
            && forall a :: a in r.addresses ==> exists k :: 0 <= k < |addresses| && Tidied(addresses[k]) == a)
  {
    if peer.hex != hex {
      forall a | a in Rekeyed(peer, hex, addresses).addresses ensures exists k :: 0 <= k < |addresses| && Tidied(addresses[k]) == a {
        assert addresses + [] == addresses;
        HeardFrom(addresses, a);
      }
    }
  }

  /** A computer trusted for the first time may control and be controlled, but not before login. */
  lemma NewPeerMayNotPrelogin(spki: seq<byte>, addresses: seq<Address>)
    ensures var p := NewPeer(spki, addresses);
      p.permissions.connect && p.permissions.sendNormal && p.permissions.receiveNormal && !p.permissions.injectPrelogin
      && DecodeHex(p.hex) == Some(spki)
  {
    HexRoundTrip(spki);
  }

  /** Replacing a key keeps keys unique exactly when no other computer has it in another spelling. */
  lemma ReplaceKeepsKeysUnique(peers: Peers, name: string, spki: seq<byte>, addresses: seq<Address>)
    requires UniqueKeys(peers) && name in peers && !TakenByOther(peers, name, EncodeHex(spki))
    ensures UniqueKeys(peers[name := Rekeyed(peers[name], EncodeHex(spki), addresses)])
            <==> !WrittenOtherwise(peers - {name}, spki)
  {
    HexRoundTrip(spki);
    var after := peers[name := Rekeyed(peers[name], EncodeHex(spki), addresses)];
    assert after[name].hex == EncodeHex(spki);
    if WrittenOtherwise(peers - {name}, spki) {
      var n :| n in peers - {name} && DecodeHex((peers - {name})[n].hex) == Some(spki);
      assert after[n] == peers[n] && n in after && n != name;
    } else {
      forall a, b | a in after && b in after && a != b ensures DecodeHex(after[a].hex) != DecodeHex(after[b].hex) {
        OtherHasAnotherKey(peers, name, spki, a);
        OtherHasAnotherKey(peers, name, spki, b);
      }
    }
  }

  lemma OtherHasAnotherKey(peers: Peers, name: string, spki: seq<byte>, other: string)
    requires !WrittenOtherwise(peers - {name}, spki) && !TakenByOther(peers, name, EncodeHex(spki))
    ensures other in peers && other != name ==> DecodeHex(peers[other].hex) != Some(spki)
  {
    if other in peers && other != name {
      assert other in peers - {name} && (peers - {name})[other] == peers[other];
    }
  }

  /** Capitals do it: a key saved as "AB" and trusted again is saved a second time, as "ab". */
  lemma CapitalsAreTrustedTwice(base: string, short: string, addresses: seq<Address>, peer: Peer, name: string, after: Peers)
    requires peer.hex == "AB" && Trusted(map["old" := peer], [171], base, short, addresses, name, after)
    ensures UniqueKeys(map["old" := peer]) && !UniqueKeys(after)
  {
    var peers: Peers := map["old" := peer];
    var text := "AB";
    assert text[2..] == "" && DecodeHex("") == Some([]);
    assert HexDigit(text[0]) == Some(10) && HexDigit(text[1]) == Some(11);
    assert [171 as byte] + [] == [171];
    assert EncodeHex([171])[0] == 'a';
    assert peers["old"].hex != EncodeHex([171]);
    assert WrittenOtherwise(peers, [171]);
    TrustKeepsKeysUnique(peers, [171], base, short, addresses, name, after);
  }
}

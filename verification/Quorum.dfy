/** Quorum certificates: how they are built, checked, and what two of them share (pkg/consensus/hotstuff.go, qc.go). */
module Quorum {
  import opened Wrappers
  import opened Machine
  import opened Types
  import opened Validators
  import Encoding

  /** Signature verification: message, signature, public key. */
  type Verifier = (Bytes, Bytes, Bytes) -> bool

  type Votes = map<Address, PrecommitVote>

  datatype QC = QC(blockHash: Hash, height: uint64, round: uint64, bitmap: seq<bv8>, signatures: seq<Bytes>)

  // ----- bitmaps -----

  /** 1 << k. */
  function Mask(k: nat): bv8
    requires k < 8
  {
    if k == 0 then 1 else if k == 1 then 2 else if k == 2 then 4 else if k == 3 then 8
    else if k == 4 then 16 else if k == 5 then 32 else if k == 6 then 64 else 128
  }

  predicate Bit(b: bv8, k: nat)
    requires k < 8
  {
    b & Mask(k) != 0
  }

  /** The k-th bit is the one of weight 2 to the k. */
  lemma BitMeans(b: bv8, k: nat)
    requires k < 8
    ensures Bit(b, k) <==> (b >> k) & 1 == 1
  {
  }

  predicate BitSet(bitmap: seq<bv8>, i: nat)
    requires i / 8 < |bitmap|
  {
    Bit(bitmap[i / 8], i % 8)
  }

  function BitmapLength(n: nat): nat { (n + 7) / 8 }

  lemma OrOwn(b: bv8, m: bv8)
    requires m != 0
    ensures (b | m) & m != 0
  {
    assert (b | m) & m == m;
  }

  lemma OrOther(b: bv8, m: bv8, m': bv8)
    requires m & m' == 0
    ensures (b | m) & m' == b & m'
  {
  }

  lemma MasksApart(j: nat, k: nat)
    requires j < 8 && k < 8
    ensures Mask(j) != 0 && (j != k ==> Mask(j) & Mask(k) == 0)
  {
  }

  lemma SetOwn(b: bv8, k: nat)
    requires k < 8
    ensures Bit(b | Mask(k), k)
  {
    hide Mask;
    MasksApart(k, k);
    OrOwn(b, Mask(k));
  }

  lemma SetOther(b: bv8, j: nat, k: nat)
    requires j < 8 && k < 8 && j != k
    ensures Bit(b | Mask(j), k) == Bit(b, k)
  {
    hide Mask;
    MasksApart(j, k);
    OrOther(b, Mask(j), Mask(k));
  }

  /** Setting bit j changes bit j only. */
  lemma SetBit(b: bv8, j: nat, k: nat)
    requires j < 8 && k < 8
    ensures Bit(b | Mask(j), k) <==> j == k || Bit(b, k)
  {
    hide Mask, Bit;
    if j == k {
      SetOwn(b, k);
    } else {
      SetOther(b, j, k);
    }
  }

  lemma SetBitIn(bitmap: seq<bv8>, j: nat, k: nat)
    requires j / 8 < |bitmap| && k / 8 < |bitmap|
    ensures BitSet(bitmap[j / 8 := bitmap[j / 8] | Mask(j % 8)], k) <==> j == k || BitSet(bitmap, k)
  {
    hide Mask, Bit;
    SetBit(bitmap[j / 8], j % 8, k % 8);
    assert j / 8 == k / 8 && j % 8 == k % 8 ==> j == k;
  }

  lemma NoBits(bitmap: seq<bv8>, k: nat)
    requires k / 8 < |bitmap| && forall i :: 0 <= i < |bitmap| ==> bitmap[i] == 0
    ensures !BitSet(bitmap, k)
  {
    assert (0 as bv8) & Mask(k % 8) == 0;
  }

  // ----- power of a set of voters -----

  function Among(voters: set<Address>): Seat -> bool { (s: Seat) => s.operator in voters }

  function Signed(bitmap: seq<bv8>): Seat -> bool { (s: Seat) => s.index / 8 < |bitmap| && BitSet(bitmap, s.index) }

  function Both(p: Seat -> bool, q: Seat -> bool): Seat -> bool { (s: Seat) => p(s) && q(s) }

  lemma {:induction false} PowerAgrees(vs: seq<Seat>, p: Seat -> bool, q: Seat -> bool)
    requires forall x :: x in vs ==> p(x) == q(x)
    ensures PowerWhere(vs, p) == PowerWhere(vs, q)
    decreases |vs|
  {
    if vs != [] {
      assert vs[0] in vs;
      PowerAgrees(vs[1..], p, q);
    }
  }

  lemma {:induction false} PowerImplies(vs: seq<Seat>, p: Seat -> bool, q: Seat -> bool)
    requires forall x :: x in vs && p(x) ==> q(x)
    ensures PowerWhere(vs, p) <= PowerWhere(vs, q)
    decreases |vs|
  {
    if vs != [] {
      assert vs[0] in vs;
      PowerImplies(vs[1..], p, q);
    }
  }

  /** What two groups have together is at most everything plus what they share. */
  lemma {:induction false} PowerOverlap(vs: seq<Seat>, p: Seat -> bool, q: Seat -> bool)
    ensures PowerWhere(vs, p) + PowerWhere(vs, q) <= PowerOf(vs) + PowerWhere(vs, Both(p, q))
    decreases |vs|
  {
    if vs != [] {
      PowerOverlap(vs[1..], p, q);
    }
  }

  /** One more voter adds its own power once, or nothing if it has no seat. */
  lemma {:induction false} OneMoreVoter(vs: seq<Seat>, voters: set<Address>, a: Address)
    requires a !in voters && forall i, j :: 0 <= i < j < |vs| ==> vs[i].operator != vs[j].operator
    ensures forall i :: 0 <= i < |vs| && vs[i].operator == a ==>
              PowerWhere(vs, Among(voters + {a})) == PowerWhere(vs, Among(voters)) + vs[i].power
    ensures (forall i :: 0 <= i < |vs| ==> vs[i].operator != a) ==>
              PowerWhere(vs, Among(voters + {a})) == PowerWhere(vs, Among(voters))
    decreases |vs|
  {
    if vs != [] {
      var rest := vs[1..];
      OneMoreVoter(rest, voters, a);
      assert forall i :: 0 < i < |vs| ==> rest[i - 1] == vs[i];
    }
  }

  // ----- building a certificate -----

  /** The code's threshold test, products wrapping. */
  predicate QuorumTest(signedPower: uint64, totalPower: uint64) { Wrap64(signedPower * 3) > Wrap64(totalPower * 2) }

  function VotedPower(vset: ValidatorSet, votes: Votes): nat { PowerWhere(vset.validators, Among(votes.Keys)) }

  function SignedPower(vset: ValidatorSet, qc: QC): nat { PowerWhere(vset.validators, Signed(qc.bitmap)) }

  /** qc carries exactly the signatures of the validators that voted, each at its own position. */
  ghost predicate Collects(vset: ValidatorSet, votes: Votes, bitmap: seq<bv8>, signatures: seq<Bytes>) {
    var vs := vset.validators;
    && |bitmap| == BitmapLength(|vs|) && |signatures| == |vs|
    && (forall i :: 0 <= i < |vs| ==> (BitSet(bitmap, i) <==> vs[i].operator in votes))
    && (forall i :: 0 <= i < |vs| ==>
      signatures[i] == if vs[i].operator in votes then votes[vs[i].operator].signature else [])
  }

  /** What tryBuildQC answers at a height and round. */
  ghost predicate Built(vset: ValidatorSet, height: uint64, round: uint64, blockHash: Hash, votes: Votes,
                        r: Option<QC>) {
    && (r.Some? <==> vset.totalPower > 0 && QuorumTest(Wrap64(VotedPower(vset, votes)), vset.totalPower))
    && (r.Some? ==>
          && r.value.blockHash == blockHash && r.value.height == Wrap64(height + 1) && r.value.round == round
          && Collects(vset, votes, r.value.bitmap, r.value.signatures))
  }

  method TryBuildQC(vset: ValidatorSet, height: uint64, round: uint64, blockHash: Hash, votes: Votes)
    returns (r: Option<QC>)
    requires Consistent(vset)
    ensures Built(vset, height, round, blockHash, votes, r)
  {
    var totalPower := vset.totalPower;
    if totalPower == 0 {
      return None;
    }
    var signedPower, signatures, bitmap := CollectVotes(vset, votes);
    if !QuorumTest(signedPower, totalPower) {
      return None;
    }
    r := Some(QC(blockHash, Wrap64(height + 1), round, bitmap, signatures));
  }

  /** Restriction of the votes to some voters. */
  function VotesOf(votes: Votes, voters: set<Address>): Votes { map a | a in votes && a in voters :: votes[a] }

  /** The loop of tryBuildQC over the votes, in any order. */
  method CollectVotes(vset: ValidatorSet, votes: Votes) returns (signedPower: uint64, sigs: seq<Bytes>, bits: seq<bv8>)
    requires Consistent(vset)
    ensures signedPower == Wrap64(VotedPower(vset, votes))
    ensures Collects(vset, votes, bits, sigs)
  {
    hide Collects, VotedPower, VotesOf, Wrap64, Mask, PowerOf;
    var n := |vset.validators|;
    signedPower := 0;
    var signatures := new Bytes[n](_ => []);
    var bitmap := new bv8[(n + 7) / 8](_ => 0);
    CollectsNone(vset, votes, bitmap[..], signatures[..]);
    var todo := votes.Keys;
    assert votes.Keys - todo == {};
    while todo != {}
      invariant todo <= votes.Keys
      invariant signedPower == Wrap64(VotedPower(vset, VotesOf(votes, votes.Keys - todo)))
      invariant Collects(vset, VotesOf(votes, votes.Keys - todo), bitmap[..], signatures[..])
    {
      var addr :| addr in todo;
      ghost var done := votes.Keys - todo;
      VotesOfMore(votes, done, addr);
      MorePower(vset, votes, done, addr);
      todo := todo - {addr};
      assert votes.Keys - todo == done + {addr};
      if addr !in vset.indexByAddr {
        UnseatedVote(vset, VotesOf(votes, done), addr, votes[addr], bitmap[..], signatures[..]);
        continue;
      }
      var idx := vset.indexByAddr[addr];
      SeatedVote(vset, VotesOf(votes, done), addr, votes[addr], bitmap[..], signatures[..]);
      WrapAdd(VotedPower(vset, VotesOf(votes, done)), vset.validators[idx].power);
      signatures[idx] := votes[addr].signature;
      bitmap[idx / 8] := bitmap[idx / 8] | Mask(idx % 8);
      signedPower := Wrap64(signedPower + vset.validators[idx].power);
    }
    AllVotes(votes);
    assert votes.Keys - todo == votes.Keys;
    sigs, bits := signatures[..], bitmap[..];
  }

  lemma CollectsNone(vset: ValidatorSet, votes: Votes, bitmap: seq<bv8>, signatures: seq<Bytes>)
    requires |bitmap| == BitmapLength(|vset.validators|) && |signatures| == |vset.validators|
    requires forall i :: 0 <= i < |bitmap| ==> bitmap[i] == 0
    requires forall i :: 0 <= i < |signatures| ==> signatures[i] == []
    ensures Collects(vset, VotesOf(votes, {}), bitmap, signatures)
    ensures Wrap64(VotedPower(vset, VotesOf(votes, {}))) == 0
  {
    hide BitSet;
    assert VotesOf(votes, {}).Keys == {};
    NobodyVoted(vset.validators);
    forall i | 0 <= i < |vset.validators|
      ensures !BitSet(bitmap, i)
    {
      NoBits(bitmap, i);
    }
  }

  lemma {:induction false} NobodyVoted(vs: seq<Seat>)
    ensures PowerWhere(vs, Among({})) == 0
    decreases |vs|
  {
    if vs != [] {
      NobodyVoted(vs[1..]);
    }
  }

  lemma AllVotes(votes: Votes)
    ensures VotesOf(votes, votes.Keys) == votes
  {
  }

  lemma VotesOfMore(votes: Votes, done: set<Address>, addr: Address)
    requires addr in votes && addr !in done && done <= votes.Keys
    ensures VotesOf(votes, done + {addr}) == VotesOf(votes, done)[addr := votes[addr]]
    ensures VotesOf(votes, done).Keys == done && VotesOf(votes, done + {addr}).Keys == done + {addr}
  {
  }

  lemma SeatsApart(vset: ValidatorSet)
    requires Consistent(vset)
    ensures forall i, j :: 0 <= i < j < |vset.validators| ==> vset.validators[i].operator != vset.validators[j].operator
  {
  }

  lemma OneSeat(vset: ValidatorSet, addr: Address, i: nat)
    requires Consistent(vset) && addr in vset.indexByAddr && i < |vset.validators|
    ensures vset.indexByAddr[addr] < |vset.validators|
    ensures vset.validators[i].operator == addr <==> i == vset.indexByAddr[addr]
  {
  }

  lemma ByteInBitmap(i: nat, n: nat)
    requires i < n
    ensures i / 8 < BitmapLength(n)
  {
  }

  lemma SeatedBits(vset: ValidatorSet, votes: Votes, addr: Address, vote: PrecommitVote, bitmap: seq<bv8>)
    requires Consistent(vset) && addr in vset.indexByAddr && |bitmap| == BitmapLength(|vset.validators|)
    requires forall i :: 0 <= i < |vset.validators| ==>
        i / 8 < |bitmap| && (BitSet(bitmap, i) <==> vset.validators[i].operator in votes)
    ensures var idx := vset.indexByAddr[addr];
      && idx < |vset.validators| && idx / 8 < |bitmap|
      && forall i :: 0 <= i < |vset.validators| ==>
           i / 8 < |bitmap| && (BitSet(bitmap[idx / 8 := bitmap[idx / 8] | Mask(idx % 8)], i) <==>
             vset.validators[i].operator in votes[addr := vote])
  {
    hide Mask, Bit, BitSet, PowerOf, Wrap64, BitmapLength, Consistent;
    var idx := vset.indexByAddr[addr];
    SeatExists(vset, addr);
    forall i | 0 <= i < |vset.validators|
      ensures i / 8 < |bitmap|
      ensures BitSet(bitmap[idx / 8 := bitmap[idx / 8] | Mask(idx % 8)], i) <==>
          vset.validators[i].operator in votes[addr := vote]
    {
      OneSeat(vset, addr, i);
      SetBitIn(bitmap, idx, i);
    }
  }

  lemma SeatExists(vset: ValidatorSet, addr: Address)
    requires Consistent(vset) && addr in vset.indexByAddr
    ensures vset.indexByAddr[addr] < |vset.validators|
  {
  }

  /** A vote from a validator: its bit and its signature. */
  lemma SeatedVote(vset: ValidatorSet, votes: Votes, addr: Address, vote: PrecommitVote, bitmap: seq<bv8>,
                   signatures: seq<Bytes>)
    requires Consistent(vset) && addr in vset.indexByAddr && Collects(vset, votes, bitmap, signatures)
    ensures var idx := vset.indexByAddr[addr];
      && idx < |signatures| && idx / 8 < |bitmap|
      && Collects(vset, votes[addr := vote], bitmap[idx / 8 := bitmap[idx / 8] | Mask(idx % 8)],
        signatures[idx := vote.signature])
  {
    hide Mask, Bit, BitSet, PowerOf, Wrap64, Consistent, BitmapLength;
    forall i | 0 <= i < |vset.validators|
      ensures i / 8 < |bitmap|
      ensures vset.indexByAddr[addr] < |vset.validators|
      ensures vset.validators[i].operator == addr <==> i == vset.indexByAddr[addr]
    {
      ByteInBitmap(i, |vset.validators|);
      OneSeat(vset, addr, i);
    }
    SeatedBits(vset, votes, addr, vote, bitmap);
  }

  lemma UnseatedVote(vset: ValidatorSet, votes: Votes, addr: Address, vote: PrecommitVote, bitmap: seq<bv8>,
                     signatures: seq<Bytes>)
    requires Consistent(vset) && addr !in vset.indexByAddr && Collects(vset, votes, bitmap, signatures)
    ensures Collects(vset, votes[addr := vote], bitmap, signatures)
  {
    hide BitSet, PowerOf, Wrap64;
    assert forall i :: 0 <= i < |vset.validators| ==> vset.validators[i].operator != addr;
  }

  lemma MorePower(vset: ValidatorSet, votes: Votes, done: set<Address>, addr: Address)
    requires Consistent(vset) && addr in votes && addr !in done && done <= votes.Keys
    ensures VotedPower(vset, VotesOf(votes, done + {addr}))
         == VotedPower(vset, VotesOf(votes, done))
            + if addr in vset.indexByAddr then vset.validators[vset.indexByAddr[addr]].power else 0
  {
    hide PowerWhere, Wrap64, PowerOf, VotesOf;
    VotesOfMore(votes, done, addr);
    SeatsApart(vset);
    OneMoreVoter(vset.validators, done, addr);
    assert addr !in vset.indexByAddr ==> forall i :: 0 <= i < |vset.validators| ==> vset.validators[i].operator != addr;
  }

  // ----- the threshold -----

  /** More than two thirds. */
  predicate Supermajority(signedPower: int, totalPower: int) { 3 * signedPower > 2 * totalPower }

  /** The wrapping test is the intended one for every possible signed power exactly when 3 * total fits in 64 bits. */
  lemma ThresholdExact(totalPower: uint64)
    ensures (forall signedPower: uint64 :: signedPower <= totalPower ==>
               (QuorumTest(signedPower, totalPower) <==> Supermajority(signedPower, totalPower)))
       <==> 3 * totalPower <= MAX64
  {
    if 3 * totalPower > MAX64 {
      ThresholdFails(totalPower);
    }
  }

  /** Below 2^63 even everybody's signatures are no quorum; above, a third of 2^64 is one. */
  lemma ThresholdFails(totalPower: uint64)
    requires 3 * totalPower > MAX64
    ensures var signedPower := if totalPower < TWO63 then totalPower else MAX64 / 3;
      signedPower <= totalPower && (QuorumTest(signedPower, totalPower) <==> !Supermajority(signedPower, totalPower))
  {
    if totalPower < TWO63 {
      assert Wrap64(totalPower * 3) == totalPower * 3 - TWO64;
    } else {
      assert Wrap64(totalPower * 2) == totalPower * 2 - TWO64;
    }
  }

  // ----- what two certificates share -----

  /** A certificate whose signers pass the threshold test. */
  ghost predicate HasQuorum(vset: ValidatorSet, qc: QC) {
    vset.totalPower > 0 && QuorumTest(Wrap64(SignedPower(vset, qc)), vset.totalPower)
  }

  lemma SignersVoted(vset: ValidatorSet, votes: Votes, qc: QC)
    requires Consistent(vset) && Collects(vset, votes, qc.bitmap, qc.signatures)
    ensures SignedPower(vset, qc) == VotedPower(vset, votes)
  {
    hide PowerOf, Wrap64, BitSet;
    var vs := vset.validators;
    forall x | x in vs
      ensures Signed(qc.bitmap)(x) == Among(votes.Keys)(x)
    {
      var i :| 0 <= i < |vs| && vs[i] == x;
    }
    PowerAgrees(vs, Signed(qc.bitmap), Among(votes.Keys));
  }

  /** A certificate that is built counts every signer's power once, and the count passes the test. */
  lemma BuiltHasQuorum(vset: ValidatorSet, height: uint64, round: uint64, blockHash: Hash, votes: Votes, qc: QC)
    requires Consistent(vset) && Built(vset, height, round, blockHash, votes, Some(qc))
    ensures HasQuorum(vset, qc) && SignedPower(vset, qc) == VotedPower(vset, votes)
  {
    hide Collects;
    SignersVoted(vset, votes, qc);
  }

  lemma {:induction false} PowerWithin(vs: seq<Seat>, p: Seat -> bool)
    ensures PowerWhere(vs, p) <= PowerOf(vs)
  {
    PowerImplies(vs, p, Anyone());
  }

  lemma QuorumIsSupermajority(vset: ValidatorSet, qc: QC)
    requires Consistent(vset) && HasQuorum(vset, qc) && 3 * PowerOf(vset.validators) <= MAX64
    ensures Supermajority(SignedPower(vset, qc), PowerOf(vset.validators))
  {
    PowerWithin(vset.validators, Signed(qc.bitmap));
    SmallWrap();
  }

  /** The signers any two certificates share hold more than a third of the power. */
  lemma QuorumsOverlap(vset: ValidatorSet, a: QC, b: QC)
    requires Consistent(vset) && 3 * PowerOf(vset.validators) <= MAX64
    requires HasQuorum(vset, a) && HasQuorum(vset, b)
    ensures 3 * PowerWhere(vset.validators, Both(Signed(a.bitmap), Signed(b.bitmap))) > PowerOf(vset.validators)
  {
    QuorumIsSupermajority(vset, a);
    QuorumIsSupermajority(vset, b);
    PowerOverlap(vset.validators, Signed(a.bitmap), Signed(b.bitmap));
  }

  /** So if validators with at most a third of the power are faulty, some other validator signed both. */
  lemma HonestInBoth(vset: ValidatorSet, a: QC, b: QC, faulty: set<Address>)
    requires Consistent(vset) && 3 * PowerOf(vset.validators) <= MAX64
    requires HasQuorum(vset, a) && HasQuorum(vset, b)
    requires 3 * PowerWhere(vset.validators, Among(faulty)) <= PowerOf(vset.validators)
    ensures exists i :: 0 <= i < |vset.validators| && vset.validators[i].operator !in faulty
                        && Signed(a.bitmap)(vset.validators[i]) && Signed(b.bitmap)(vset.validators[i])
  {
    hide PowerOf, PowerWhere, HasQuorum;
    var vs, shared := vset.validators, Both(Signed(a.bitmap), Signed(b.bitmap));
    QuorumsOverlap(vset, a, b);
    if forall x :: x in vs && shared(x) ==> Among(faulty)(x) {
      PowerImplies(vs, shared, Among(faulty));
      assert false;
    }
    var x :| x in vs && shared(x) && !Among(faulty)(x);
    var i :| 0 <= i < |vs| && vs[i] == x;
  }

  // ----- checking a certificate -----

  /** What a precommit signature covers. */
  function SignBytes(v: PrecommitVote): Bytes { Encoding.VoteBytes(v.(signature := [])) }

  /** Equal bytes to sign mean the same hash, height, round and validator. */
  lemma SignBytesCommit(v: PrecommitVote, w: PrecommitVote)
    requires |SignBytes(v)| <= MAX64 && SignBytes(v) == SignBytes(w)
    ensures v.blockHash == w.blockHash && v.height == w.height && v.round == w.round && v.validator == w.validator
  {
    hide Encoding.VoteBytes;
    Encoding.VoteInjective(v.(signature := []), w.(signature := []));
  }

  datatype Fault = NoValidators | BadBitmapLength | MissingSignature(index: nat) | BadSignature(index: nat)

  /** What is wrong with seat i of a certificate. */
  function SeatFault(qc: QC, vset: ValidatorSet, verify: Verifier, i: nat): Option<Fault>
    requires i < |vset.validators| && |qc.bitmap| == BitmapLength(|vset.validators|)
  {
    var v := vset.validators[i];
    if !BitSet(qc.bitmap, i) then None
    else if i >= |qc.signatures| || |qc.signatures[i]| == 0 then Some(MissingSignature(i))
    else if !verify(SignBytes(PrecommitVote(qc.blockHash, qc.height, qc.round, v.operator, [])), qc.signatures[i],
      v.pubKey) then
      Some(BadSignature(i))
    else None
  }

  ghost predicate QCValid(qc: QC, vset: ValidatorSet, verify: Verifier) {
    && |vset.validators| > 0
    && |qc.bitmap| == BitmapLength(|vset.validators|)
    && forall i :: 0 <= i < |vset.validators| ==> SeatFault(qc, vset, verify, i).None?
  }

  /** The first seat with a fault is i's, and this is the fault. */
  ghost predicate FirstFault(qc: QC, vset: ValidatorSet, verify: Verifier, i: nat, fault: Option<Fault>)
    requires i < |vset.validators| && |qc.bitmap| == BitmapLength(|vset.validators|)
  {
    fault == SeatFault(qc, vset, verify, i) && forall k :: 0 <= k < i ==> SeatFault(qc, vset, verify, k).None?
  }

  /** Body of VerifyQC's loop. */
  method CheckSeat(qc: QC, vset: ValidatorSet, verify: Verifier, i: nat) returns (fault: Option<Fault>)
    requires i < |vset.validators| && |qc.bitmap| == BitmapLength(|vset.validators|)
    ensures fault == SeatFault(qc, vset, verify, i)
  {
    hide Bit, Encoding.VoteBytes;
    var v := vset.validators[i];
    var byteIdx, bitIdx := i / 8, i % 8;
    var signed := Bit(qc.bitmap[byteIdx], bitIdx);
    if !signed {
      return None;
    }
    if i >= |qc.signatures| || |qc.signatures[i]| == 0 {
      return Some(MissingSignature(i));
    }
    var vote := PrecommitVote(qc.blockHash, qc.height, qc.round, v.operator, []);
    var msg := Encoding.MarshalPrecommitVote(vote);
    if !verify(msg, qc.signatures[i], v.pubKey) {
      return Some(BadSignature(i));
    }
    fault := None;
  }

  /** A certificate is valid when every validator whose bit is set has signed its hash, height and round. */
  lemma SeatsMean(qc: QC, vset: ValidatorSet, verify: Verifier)
    ensures QCValid(qc, vset, verify) <==>
              && |vset.validators| > 0 && |qc.bitmap| == (|vset.validators| + 7) / 8
              && forall i :: 0 <= i < |vset.validators| && Bit(qc.bitmap[i / 8], i % 8) ==>
                   && i < |qc.signatures| && |qc.signatures[i]| > 0
                   && verify(Encoding.VoteBytes(
                        PrecommitVote(qc.blockHash, qc.height, qc.round, vset.validators[i].operator, [])),
                        qc.signatures[i], vset.validators[i].pubKey)
  {
    hide Bit, Encoding.VoteBytes;
    if |vset.validators| > 0 && |qc.bitmap| == BitmapLength(|vset.validators|) {
      forall i | 0 <= i < |vset.validators|
        ensures SeatFault(qc, vset, verify, i).None? <==>
                  (Bit(qc.bitmap[i / 8], i % 8) ==>
                     && i < |qc.signatures| && |qc.signatures[i]| > 0
                     && verify(Encoding.VoteBytes(
                          PrecommitVote(qc.blockHash, qc.height, qc.round, vset.validators[i].operator, [])),
                          qc.signatures[i], vset.validators[i].pubKey))
      {
      }
    }
  }

  method VerifyQC(qc: QC, vset: ValidatorSet, verify: Verifier) returns (fault: Option<Fault>)
    ensures fault.None? <==> QCValid(qc, vset, verify)
    ensures fault.Some? && |vset.validators| > 0 && |qc.bitmap| == BitmapLength(|vset.validators|) ==>
              exists i :: 0 <= i < |vset.validators| && FirstFault(qc, vset, verify, i, fault)
    ensures fault.None? <==>
              && |vset.validators| > 0 && |qc.bitmap| == (|vset.validators| + 7) / 8
              && forall i :: 0 <= i < |vset.validators| && Bit(qc.bitmap[i / 8], i % 8) ==>
                   && i < |qc.signatures| && |qc.signatures[i]| > 0
                   && verify(Encoding.VoteBytes(
                        PrecommitVote(qc.blockHash, qc.height, qc.round, vset.validators[i].operator, [])),
                        qc.signatures[i], vset.validators[i].pubKey)
  {
    hide SeatFault;
    SeatsMean(qc, vset, verify);
    if |vset.validators| == 0 {
      return Some(NoValidators);
    }
    if |qc.bitmap| != (|vset.validators| + 7) / 8 {
      return Some(BadBitmapLength);
    }
    for i := 0 to |vset.validators|
      invariant forall k :: 0 <= k < i ==> SeatFault(qc, vset, verify, k).None?
    {
      fault := CheckSeat(qc, vset, verify, i);
      if fault.Some? {
        assert FirstFault(qc, vset, verify, i, fault);
        return;
      }
    }
    fault := None;
  }

  /** A certificate nobody signed passes: VerifyQC looks at signatures, not at power. */
  lemma PowerUnchecked(vset: ValidatorSet, verify: Verifier, blockHash: Hash, height: uint64, round: uint64)
    requires |vset.validators| > 0
    ensures var qc := QC(blockHash, height, round, seq(BitmapLength(|vset.validators|), _ => 0), []);
      QCValid(qc, vset, verify) && SignedPower(vset, qc) == 0
  {
    var bitmap: seq<bv8> := seq(BitmapLength(|vset.validators|), _ => 0);
    hide BitSet;
    forall i: nat | i / 8 < |bitmap|
      ensures !BitSet(bitmap, i)
    {
      NoBits(bitmap, i);
    }
    PowerAgrees(vset.validators, Signed(bitmap), Among({}));
    NobodyVoted(vset.validators);
  }

  // ----- when a built certificate is valid -----

  /** The message VerifyQC rebuilds for a's seat in a certificate of this height, round and hash. */
  function Rebuilt(blockHash: Hash, height: uint64, round: uint64, a: Address): Bytes {
    SignBytes(PrecommitVote(blockHash, Wrap64(height + 1), round, a, []))
  }

  function SeatKey(vset: ValidatorSet, a: Address): Option<Bytes> {
    if a !in vset.indexByAddr then None
    else if vset.indexByAddr[a] >= |vset.validators| then None
    else Some(vset.validators[vset.indexByAddr[a]].pubKey)
  }

  /** A vote filed under its hash and validator, whose signature verifies under the validator's key if it has a seat. */
  ghost predicate VoteFiled(vset: ValidatorSet, verify: Verifier, blockHash: Hash, a: Address, v: PrecommitVote) {
    && v.blockHash == blockHash && v.validator == a
    && (SeatKey(vset, a).Some? ==> verify(SignBytes(v), v.signature, SeatKey(vset, a).value))
  }

  /** A validator that voted did so for the height after this one and for this round. */
  predicate CastIn(votes: Votes, a: Address, height: uint64, round: uint64) {
    a in votes ==> votes[a].height == Wrap64(height + 1) && votes[a].round == round
  }

  /** a's signature, if it voted, is not empty and verifies for the message that is rebuilt. */
  predicate SignsRebuilt(vset: ValidatorSet, verify: Verifier, height: uint64, round: uint64, h: Hash, votes: Votes,
                         a: Address) {
    a in votes && SeatKey(vset, a).Some? ==>
      |votes[a].signature| > 0 && verify(Rebuilt(h, height, round, a), votes[a].signature, SeatKey(vset, a).value)
  }

  /** The bytes a's vote signs are no longer than 2^64 - 1. */
  predicate VoteFits(votes: Votes, a: Address) { a in votes ==> |SignBytes(votes[a])| <= MAX64 }

  /**
   * a's signature does not verify for two different messages among the one it voted for and the one
   * that is rebuilt.
   */
  predicate Separates(vset: ValidatorSet, verify: Verifier, height: uint64, round: uint64, h: Hash, votes: Votes,
                      a: Address) {
    a in votes && SeatKey(vset, a).Some? ==>
      var sig, key := votes[a].signature, SeatKey(vset, a).value;
      verify(SignBytes(votes[a]), sig, key) && verify(Rebuilt(h, height, round, a), sig, key) ==>
        SignBytes(votes[a]) == Rebuilt(h, height, round, a)
  }

  lemma SeatOfVote(vset: ValidatorSet, verify: Verifier, height: uint64, round: uint64, h: Hash, votes: Votes, qc: QC,
                   i: nat)
    requires Consistent(vset) && Built(vset, height, round, h, votes, Some(qc)) && i < |vset.validators|
    ensures SeatFault(qc, vset, verify, i).None? <==>
              SignsRebuilt(vset, verify, height, round, h, votes, vset.validators[i].operator)
  {
    hide Wrap64, PowerOf, QuorumTest, BitSet, Encoding.VoteBytes;
  }

  /**
   * With nothing assumed about the verifier: a built certificate is valid exactly when every
   * validator's signature in it verifies for the message that names the certificate's own
   * height and round.
   */
  lemma BuiltIsValid(vset: ValidatorSet, verify: Verifier, height: uint64, round: uint64, h: Hash, votes: Votes, qc: QC)
    requires Consistent(vset) && Built(vset, height, round, h, votes, Some(qc))
    ensures QCValid(qc, vset, verify) <==>
              forall a :: a in vset.indexByAddr ==> SignsRebuilt(vset, verify, height, round, h, votes, a)
  {
    hide Wrap64, PowerOf, QuorumTest, SeatFault, SignsRebuilt;
    SomeSeat(vset);
    forall i | 0 <= i < |vset.validators|
      ensures SeatFault(qc, vset, verify, i).None? <==>
                SignsRebuilt(vset, verify, height, round, h, votes, vset.validators[i].operator)
    {
      SeatOfVote(vset, verify, height, round, h, votes, qc, i);
    }
  }

  /** Votes of the certificate's height and round, signed and filed, make a valid certificate under any verifier. */
  lemma CurrentIsValid(vset: ValidatorSet, verify: Verifier, height: uint64, round: uint64, h: Hash, votes: Votes,
                       qc: QC)
    requires Consistent(vset) && Built(vset, height, round, h, votes, Some(qc))
    requires forall a :: a in votes ==> VoteFiled(vset, verify, h, a, votes[a]) && |votes[a].signature| > 0
    requires forall a :: a in vset.indexByAddr ==> CastIn(votes, a, height, round)
    ensures QCValid(qc, vset, verify)
  {
    hide Wrap64, Consistent, Built, QCValid, Encoding.VoteBytes;
    forall a | a in vset.indexByAddr
      ensures SignsRebuilt(vset, verify, height, round, h, votes, a)
    {
      if a in votes {
        assert votes[a].(signature := []) == PrecommitVote(h, Wrap64(height + 1), round, a, []);
      }
    }
    BuiltIsValid(vset, verify, height, round, h, votes, qc);
  }

  /**
   * A validator whose signature verifies for both messages, but cannot for two, has voted for this
   * height and round.
   */
  lemma SeparatedIsCurrent(vset: ValidatorSet, verify: Verifier, height: uint64, round: uint64, h: Hash, votes: Votes,
                           a: Address)
    requires a in votes && SeatKey(vset, a).Some? && VoteFiled(vset, verify, h, a, votes[a])
    requires VoteFits(votes, a) && Separates(vset, verify, height, round, h, votes, a)
    requires SignsRebuilt(vset, verify, height, round, h, votes, a)
    ensures CastIn(votes, a, height, round)
  {
    hide Encoding.VoteBytes, Wrap64;
    Encoding.VoteInjective(votes[a].(signature := []), PrecommitVote(h, Wrap64(height + 1), round, a, []));
  }

  /**
   * A certificate built from filed, signed votes is valid exactly when each of them was cast
   * for the height and round it names, if no validator's signature verifies for both the
   * message it voted for and the different one that is rebuilt.
   */
  lemma ValidExactly(vset: ValidatorSet, verify: Verifier, height: uint64, round: uint64, h: Hash, votes: Votes, qc: QC)
    requires Consistent(vset) && Built(vset, height, round, h, votes, Some(qc))
    requires forall a :: a in votes ==> VoteFiled(vset, verify, h, a, votes[a]) && |votes[a].signature| > 0
    requires forall a :: a in votes ==> VoteFits(votes, a) && Separates(vset, verify, height, round, h, votes, a)
    ensures QCValid(qc, vset, verify) <==> forall a :: a in vset.indexByAddr ==> CastIn(votes, a, height, round)
  {
    hide Wrap64, Built, QCValid, VoteFiled, SignsRebuilt, VoteFits, Separates, PowerOf;
    BuiltIsValid(vset, verify, height, round, h, votes, qc);
    if forall a :: a in vset.indexByAddr ==> CastIn(votes, a, height, round) {
      CurrentIsValid(vset, verify, height, round, h, votes, qc);
    }
    if QCValid(qc, vset, verify) {
      forall a | a in vset.indexByAddr
        ensures CastIn(votes, a, height, round)
      {
        SeatExists(vset, a);
        if a in votes {
          SeparatedIsCurrent(vset, verify, height, round, h, votes, a);
        }
      }
    }
  }

  lemma SomeSeat(vset: ValidatorSet)
    requires Consistent(vset) && vset.totalPower > 0
    ensures |vset.validators| > 0
  {
  }

  /**
   * A vote for another height or round that is still recorded under a hash enters every
   * certificate built for that hash: its bit is set, its signature is carried, its power is
   * counted, and the certificate is invalid unless that signature verifies for a second message.
   */
  lemma StrayVoteSpoils(vset: ValidatorSet, verify: Verifier, height: uint64, round: uint64, h: Hash, votes: Votes,
                        qc: QC, a: Address)
    requires Consistent(vset) && Built(vset, height, round, h, votes, Some(qc))
    requires a in votes && a in vset.indexByAddr && !CastIn(votes, a, height, round)
    ensures var idx := vset.indexByAddr[a];
      && idx < |qc.signatures| && idx / 8 < |qc.bitmap|
      && BitSet(qc.bitmap, idx) && qc.signatures[idx] == votes[a].signature
    ensures SignedPower(vset, qc) == VotedPower(vset, votes)
    ensures (VoteFiled(vset, verify, h, a, votes[a]) && VoteFits(votes, a)
             && Separates(vset, verify, height, round, h, votes, a)) ==> !QCValid(qc, vset, verify)
  {
    hide Wrap64, PowerOf, QuorumTest, BitSet, QCValid, VoteFiled, SignsRebuilt, VoteFits, Separates, CastIn;
    SignersVoted(vset, votes, qc);
    SeatExists(vset, a);
    ByteInBitmap(vset.indexByAddr[a], |vset.validators|);
    BuiltIsValid(vset, verify, height, round, h, votes, qc);
    if VoteFiled(vset, verify, h, a, votes[a]) && VoteFits(votes, a)
      && Separates(vset, verify, height, round, h, votes, a)
       && QCValid(qc, vset, verify) {
      SeparatedIsCurrent(vset, verify, height, round, h, votes, a);
      assert false;
    }
  }
}

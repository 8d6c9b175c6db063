/** Inclusion proofs of the reputation log, for an arbitrary hash with 32-byte results. */
module MerkleInclusion {
  import opened Common

  type Bytes = seq<byte>

  type Hash = Bytes -> Bytes

  ghost predicate Sized(h: Hash) { forall x :: |h(x)| == 32 }

  // ---- trees ---------------------------------------------------------------

  function Pow2(k: nat): (p: nat)
    ensures p > 0
  {
    if k == 0 then 1 else 2 * Pow2(k - 1)
  }

  function LeafHash(h: Hash, data: Bytes): Bytes { h([0] + data) }

  function NodeHash(h: Hash, left: Bytes, right: Bytes): Bytes { h([1] + left + right) }

  function Root(h: Hash, leaves: seq<Bytes>, k: nat): Bytes
    requires |leaves| == Pow2(k)
  {
    if k == 0 then LeafHash(h, leaves[0])
    else NodeHash(h, Root(h, leaves[..Pow2(k - 1)], k - 1), Root(h, leaves[Pow2(k - 1)..], k - 1))
  }

  /** index >> i */
  function Shift(index: nat, i: nat): nat { if i == 0 then index else Shift(index, i - 1) / 2 }

  function Bit(index: nat, i: nat): nat { Shift(index, i) % 2 }

  /** One half of the leaves. */
  function Half(leaves: seq<Bytes>, k: nat, bit: nat): (r: seq<Bytes>)
    requires k > 0 && |leaves| == Pow2(k)
    ensures |r| == Pow2(k - 1)
  {
    if bit == 0 then leaves[..Pow2(k - 1)] else leaves[Pow2(k - 1)..]
  }

  function Other(bit: nat): nat { if bit == 0 then 1 else 0 }

  /** The half that the top bit of the index selects, and the other one. */
  function Near(leaves: seq<Bytes>, k: nat, index: nat): (r: seq<Bytes>)
    requires k > 0 && |leaves| == Pow2(k)
    ensures |r| == Pow2(k - 1)
  {
    Half(leaves, k, Bit(index, k - 1))
  }

  function Far(leaves: seq<Bytes>, k: nat, index: nat): (r: seq<Bytes>)
    requires k > 0 && |leaves| == Pow2(k)
    ensures |r| == Pow2(k - 1)
  {
    Half(leaves, k, Other(Bit(index, k - 1)))
  }

  /** The siblings on the way from a leaf to the root. */
  function AuditPath(h: Hash, leaves: seq<Bytes>, k: nat, index: nat): (r: seq<Bytes>)
    requires |leaves| == Pow2(k)
    ensures |r| == k
  {
    if k == 0 then [] else AuditPath(h, Near(leaves, k, index), k - 1, index) + [Root(h, Far(leaves, k, index), k - 1)]
  }

  // ---- climbing ------------------------------------------------------------

  /** A sibling as it lands in the 32 bytes kept for it. */
  function Fit(s: Bytes): (r: Bytes)
    ensures |r| == 32
  {
    if |s| >= 32 then s[..32] else s + seq(32 - |s|, _ => 0)
  }

  function Join(h: Hash, bit: nat, below: Bytes, sibling: Bytes): Bytes {
    if bit == 0 then NodeHash(h, below, Fit(sibling)) else NodeHash(h, Fit(sibling), below)
  }

  /** The root that a leaf and a path claim. */
  function Climb(h: Hash, data: Bytes, index: nat, path: seq<Bytes>): Bytes {
    if path == [] then LeafHash(h, data)
    else
      var m := |path| - 1;
      Join(h, Bit(index, m), Climb(h, data, index, path[..m]), path[m])
  }

  lemma ClimbSized(h: Hash, data: Bytes, index: nat, path: seq<Bytes>)
    requires Sized(h)
    ensures |Climb(h, data, index, path)| == 32
  {
  }

  lemma RootSized(h: Hash, leaves: seq<Bytes>, k: nat)
    requires Sized(h) && |leaves| == Pow2(k)
    ensures |Root(h, leaves, k)| == 32
  {
  }

  // ---- which leaf an index names -------------------------------------------

  /** The leaf that the low k bits of the index lead to. */
  function LeafAt(leaves: seq<Bytes>, k: nat, index: nat): Bytes
    requires |leaves| == Pow2(k)
  {
    if k == 0 then leaves[0] else LeafAt(Near(leaves, k, index), k - 1, index)
  }

  /** The number that the low k bits of the index make. */
  function Low(index: nat, k: nat): (r: nat)
    ensures r < Pow2(k)
  {
    if k == 0 then 0 else Low(index, k - 1) + if Bit(index, k - 1) == 0 then 0 else Pow2(k - 1)
  }

  lemma Doubled(a: nat, b: nat, p: nat)
    requires b == 0 || b == 1
    ensures (2 * a + b) * p == a * (2 * p) + if b == 0 then 0 else p
  {
  }

  lemma {:induction false} LowBits(index: nat, k: nat)
    ensures index == Shift(index, k) * Pow2(k) + Low(index, k)
  {
    if k > 0 {
      var q := Shift(index, k - 1);
      LowBits(index, k - 1);
      Doubled(q / 2, q % 2, Pow2(k - 1));
      assert q == 2 * (q / 2) + q % 2;
    }
  }

  lemma AtLeast(d: nat, m: nat)
    requires d > 0
    ensures d * m >= m
  {
  }

  /** An index within range is its own low part. */
  lemma LowIsIndex(index: nat, k: nat)
    requires index < Pow2(k)
    ensures Low(index, k) == index
  {
    LowBits(index, k);
    if Shift(index, k) > 0 { AtLeast(Shift(index, k), Pow2(k)); }
  }

  /** The index leads to the leaf with that number, its high bits being ignored. */
  lemma {:induction false} LeafNumber(leaves: seq<Bytes>, k: nat, index: nat)
    requires |leaves| == Pow2(k)
    ensures LeafAt(leaves, k, index) == leaves[Low(index, k)]
    ensures index < |leaves| ==> LeafAt(leaves, k, index) == leaves[index]
  {
    if k > 0 { LeafNumber(Near(leaves, k, index), k - 1, index); }
    if index < |leaves| { LowIsIndex(index, k); }
  }

  // ---- completeness --------------------------------------------------------

  lemma FitRoot(s: Bytes)
    requires |s| == 32
    ensures Fit(s) == s
  {
  }

  lemma JoinHalves(h: Hash, leaves: seq<Bytes>, k: nat, bit: nat)
    requires Sized(h) && k > 0 && |leaves| == Pow2(k)
    ensures Join(h, bit, Root(h, Half(leaves, k, bit), k - 1), Root(h, Half(leaves, k, Other(bit)), k - 1))
            == Root(h, leaves, k)
  {
    RootSized(h, Half(leaves, k, Other(bit)), k - 1);
    FitRoot(Root(h, Half(leaves, k, Other(bit)), k - 1));
  }

  lemma ClimbSnoc(h: Hash, data: Bytes, index: nat, path: seq<Bytes>, sibling: Bytes)
    ensures Climb(h, data, index, path + [sibling]) == Join(h, Bit(index, |path|), Climb(h, data, index, path), sibling)
  {
    assert (path + [sibling])[..|path|] == path;
  }

  /** The genuine path of every leaf leads to the root. */
  lemma {:induction false} GenuineAccepted(h: Hash, leaves: seq<Bytes>, k: nat, index: nat)
    requires Sized(h) && |leaves| == Pow2(k)
    ensures Climb(h, LeafAt(leaves, k, index), index, AuditPath(h, leaves, k, index)) == Root(h, leaves, k)
  {
    hide Bit, Join;
    if k > 0 {
      var near, far := Near(leaves, k, index), Far(leaves, k, index);
      GenuineAccepted(h, near, k - 1, index);
      JoinHalves(h, leaves, k, Bit(index, k - 1));
      var leaf, path, root := LeafAt(near, k - 1, index), AuditPath(h, near, k - 1, index), Root(h, far, k - 1);
      ClimbSnoc(h, leaf, index, path, root);
    }
  }

  // ---- soundness -----------------------------------------------------------

  function NodeInput(left: Bytes, right: Bytes): Bytes { [1] + left + right }

  /** What is hashed while a tree is built. */
  ghost function TreeInputs(h: Hash, leaves: seq<Bytes>, k: nat): set<Bytes>
    requires |leaves| == Pow2(k)
  {
    if k == 0 then {[0] + leaves[0]}
    else
      var left, right := leaves[..Pow2(k - 1)], leaves[Pow2(k - 1)..];
      TreeInputs(h, left, k - 1) + TreeInputs(h, right, k - 1)
        + {NodeInput(Root(h, left, k - 1), Root(h, right, k - 1))}
  }

  function JoinInput(bit: nat, below: Bytes, sibling: Bytes): Bytes {
    if bit == 0 then NodeInput(below, Fit(sibling)) else NodeInput(Fit(sibling), below)
  }

  /** What is hashed while a proof is checked. */
  ghost function ProofInputs(h: Hash, data: Bytes, index: nat, path: seq<Bytes>): set<Bytes> {
    if path == [] then {[0] + data}
    else
      var m := |path| - 1;
      ProofInputs(h, data, index, path[..m]) + {JoinInput(Bit(index, m), Climb(h, data, index, path[..m]), path[m])}
  }

  /** No two of the inputs share a hash. */
  ghost predicate InjectiveOn(h: Hash, inputs: set<Bytes>) {
    forall x, y {:trigger h(x), h(y)} :: x in inputs && y in inputs && h(x) == h(y) ==> x == y
  }

  lemma NodeParts(a: Bytes, b: Bytes, c: Bytes, d: Bytes)
    requires |a| == 32 && |c| == 32 && NodeInput(a, b) == NodeInput(c, d)
    ensures a == c && b == d
  {
    assert a == NodeInput(a, b)[1..33] && c == NodeInput(c, d)[1..33];
    assert b == NodeInput(a, b)[33..] && d == NodeInput(c, d)[33..];
  }

  lemma LeafIsNoNode(data: Bytes, a: Bytes, b: Bytes)
    ensures [0] + data != NodeInput(a, b)
  {
    assert ([0] + data)[0] != NodeInput(a, b)[0];
  }

  lemma RootInput(h: Hash, leaves: seq<Bytes>, k: nat, bit: nat)
    requires k > 0 && |leaves| == Pow2(k) && Sized(h)
    ensures var near, far := Root(h, Half(leaves, k, bit), k - 1), Root(h, Half(leaves, k, Other(bit)), k - 1);
            JoinInput(bit, near, far) in TreeInputs(h, leaves, k) && h(JoinInput(bit, near, far)) == Root(h, leaves, k)
    ensures TreeInputs(h, Half(leaves, k, bit), k - 1) <= TreeInputs(h, leaves, k)
  {
    var left, right := leaves[..Pow2(k - 1)], leaves[Pow2(k - 1)..];
    RootSized(h, left, k - 1);
    RootSized(h, right, k - 1);
    FitRoot(Root(h, left, k - 1));
    FitRoot(Root(h, right, k - 1));
  }

  lemma JoinParts(bit: nat, a: Bytes, b: Bytes, c: Bytes, d: Bytes)
    requires |a| == 32 && |c| == 32 && JoinInput(bit, a, b) == JoinInput(bit, c, d)
    ensures a == c && Fit(b) == Fit(d)
  {
    if bit == 0 { NodeParts(a, Fit(b), c, Fit(d)); } else { NodeParts(Fit(b), a, Fit(d), c); }
  }

  lemma TopParts(h: Hash, leaves: seq<Bytes>, k: nat, bit: nat, below: Bytes, sibling: Bytes, inputs: set<Bytes>)
    requires Sized(h) && k > 0 && |leaves| == Pow2(k) && |below| == 32
    requires TreeInputs(h, leaves, k) <= inputs && JoinInput(bit, below, sibling) in inputs && InjectiveOn(h, inputs)
    requires h(JoinInput(bit, below, sibling)) == Root(h, leaves, k)
    ensures below == Root(h, Half(leaves, k, bit), k - 1) && Fit(sibling) == Root(h, Half(leaves, k, Other(bit)), k - 1)
  {
    hide TreeInputs, Half, JoinInput;
    var near, far := Root(h, Half(leaves, k, bit), k - 1), Root(h, Half(leaves, k, Other(bit)), k - 1);
    RootInput(h, leaves, k, bit);
    RootSized(h, Half(leaves, k, bit), k - 1);
    RootSized(h, Half(leaves, k, Other(bit)), k - 1);
    JoinParts(bit, below, sibling, near, far);
    FitRoot(far);
  }

  lemma FewerInputs(h: Hash, few: set<Bytes>, many: set<Bytes>)
    requires few <= many && InjectiveOn(h, many)
    ensures InjectiveOn(h, few)
  {
  }

  lemma UnionMonotone(a: set<Bytes>, b: set<Bytes>, c: set<Bytes>, d: set<Bytes>)
    requires a <= c && b <= d
    ensures a + b <= c + d
  {
  }

  lemma ProofStep(h: Hash, data: Bytes, index: nat, path: seq<Bytes>)
    requires path != []
    ensures var m := |path| - 1; var below := Climb(h, data, index, path[..m]);
            && ProofInputs(h, data, index, path[..m]) <= ProofInputs(h, data, index, path)
            && JoinInput(Bit(index, m), below, path[m]) in ProofInputs(h, data, index, path)
            && h(JoinInput(Bit(index, m), below, path[m])) == Climb(h, data, index, path)
  {
  }

  /** The last step of an accepted proof joins the roots of the two halves. */
  lemma TopStep(h: Hash, leaves: seq<Bytes>, k: nat, data: Bytes, index: nat, path: seq<Bytes>)
    requires Sized(h) && k > 0 && |leaves| == Pow2(k) && path != [] && Climb(h, data, index, path) == Root(h, leaves, k)
    requires InjectiveOn(h, TreeInputs(h, leaves, k) + ProofInputs(h, data, index, path))
    ensures var m := |path| - 1;
            && Climb(h, data, index, path[..m]) == Root(h, Half(leaves, k, Bit(index, m)), k - 1)
            && Fit(path[m]) == Root(h, Half(leaves, k, Other(Bit(index, m))), k - 1)
  {
    var m := |path| - 1;
    ClimbSized(h, data, index, path[..m]);
    ProofStep(h, data, index, path);
    TopParts(h, leaves, k, Bit(index, m), Climb(h, data, index, path[..m]), path[m],
             TreeInputs(h, leaves, k) + ProofInputs(h, data, index, path));
  }

  lemma HalfInputs(h: Hash, leaves: seq<Bytes>, k: nat, bit: nat, few: set<Bytes>, many: set<Bytes>)
    requires Sized(h) && k > 0 && |leaves| == Pow2(k) && few <= many && InjectiveOn(h, TreeInputs(h, leaves, k) + many)
    ensures InjectiveOn(h, TreeInputs(h, Half(leaves, k, bit), k - 1) + few)
  {
    RootInput(h, leaves, k, bit);
    var part, whole := TreeInputs(h, Half(leaves, k, bit), k - 1), TreeInputs(h, leaves, k);
    UnionMonotone(part, few, whole, many);
    FewerInputs(h, part + few, whole + many);
  }

  lemma TopInputs(h: Hash, leaves: seq<Bytes>, k: nat, data: Bytes, index: nat, path: seq<Bytes>)
    requires Sized(h) && k > 0 && |leaves| == Pow2(k) && path != []
    requires InjectiveOn(h, TreeInputs(h, leaves, k) + ProofInputs(h, data, index, path))
    ensures var m := |path| - 1;
            InjectiveOn(h, TreeInputs(h, Half(leaves, k, Bit(index, m)), k - 1)
                        + ProofInputs(h, data, index, path[..m]))
  {
    var m := |path| - 1;
    ProofStep(h, data, index, path);
    HalfInputs(h, leaves, k, Bit(index, m), ProofInputs(h, data, index, path[..m]), ProofInputs(h, data, index, path));
  }

  /** A path of another length leads to the root of no perfect tree of depth k. */
  lemma {:induction false} AcceptedLength(h: Hash, leaves: seq<Bytes>, k: nat, data: Bytes, index: nat,
                                          path: seq<Bytes>)
    requires Sized(h) && |leaves| == Pow2(k) && Climb(h, data, index, path) == Root(h, leaves, k)
    requires InjectiveOn(h, TreeInputs(h, leaves, k) + ProofInputs(h, data, index, path))
    ensures |path| == k
    decreases k
  {
    if k > 0 && path != [] {
      var m := |path| - 1;
      TopStep(h, leaves, k, data, index, path);
      TopInputs(h, leaves, k, data, index, path);
      AcceptedLength(h, Half(leaves, k, Bit(index, m)), k - 1, data, index, path[..m]);
    } else if k > 0 {
      ShortPath(h, leaves, k, data);
    } else if path != [] {
      LongPath(h, leaves[0], data, index, path);
    }
  }

  lemma ShortPath(h: Hash, leaves: seq<Bytes>, k: nat, data: Bytes)
    requires Sized(h) && k > 0 && |leaves| == Pow2(k) && LeafHash(h, data) == Root(h, leaves, k)
    ensures !InjectiveOn(h, TreeInputs(h, leaves, k) + {[0] + data})
  {
    var left, right := Root(h, Half(leaves, k, 0), k - 1), Root(h, Half(leaves, k, 1), k - 1);
    RootInput(h, leaves, k, 0);
    LeafIsNoNode(data, left, Fit(right));
  }

  lemma LongPath(h: Hash, leaf: Bytes, data: Bytes, index: nat, path: seq<Bytes>)
    requires path != [] && Climb(h, data, index, path) == LeafHash(h, leaf)
    ensures !InjectiveOn(h, {[0] + leaf} + ProofInputs(h, data, index, path))
  {
    var m := |path| - 1;
    var below := Climb(h, data, index, path[..m]);
    LeafIsNoNode(leaf, below, Fit(path[m]));
    LeafIsNoNode(leaf, Fit(path[m]), below);
    assert JoinInput(Bit(index, m), below, path[m]) in ProofInputs(h, data, index, path);
  }

  /** data and path are the leaf at the index and its siblings, as far as the bytes count. */
  ghost predicate Genuine(h: Hash, leaves: seq<Bytes>, k: nat, data: Bytes, index: nat, path: seq<Bytes>)
    requires |leaves| == Pow2(k)
  {
    && |path| == k && data == LeafAt(leaves, k, index)
    && forall i :: 0 <= i < k ==> Fit(path[i]) == AuditPath(h, leaves, k, index)[i]
  }

  lemma AcceptedLeaf(h: Hash, leaves: seq<Bytes>, data: Bytes, index: nat, path: seq<Bytes>)
    requires |leaves| == Pow2(0) && path == [] && Climb(h, data, index, path) == Root(h, leaves, 0)
    requires InjectiveOn(h, TreeInputs(h, leaves, 0) + ProofInputs(h, data, index, path))
    ensures Genuine(h, leaves, 0, data, index, path)
  {
    assert ([0] + data)[1..] == data && ([0] + leaves[0])[1..] == leaves[0];
  }

  /** As long as no two inputs hashed on either side collide, a proof of any length that leads to the
      root proves the leaf at its index, with that leaf's own siblings. */
  lemma {:induction false} AcceptedGenuine(h: Hash, leaves: seq<Bytes>, k: nat, data: Bytes, index: nat,
                                           path: seq<Bytes>)
    requires Sized(h) && |leaves| == Pow2(k) && Climb(h, data, index, path) == Root(h, leaves, k)
    requires InjectiveOn(h, TreeInputs(h, leaves, k) + ProofInputs(h, data, index, path))
    ensures Genuine(h, leaves, k, data, index, path)
    decreases k
  {
    hide Climb, Root, InjectiveOn, TreeInputs, ProofInputs, Genuine, Fit, Sized;
    AcceptedLength(h, leaves, k, data, index, path);
    if k == 0 {
      AcceptedLeaf(h, leaves, data, index, path);
    } else {
      TopStep(h, leaves, k, data, index, path);
      TopInputs(h, leaves, k, data, index, path);
      AcceptedGenuine(h, Near(leaves, k, index), k - 1, data, index, path[..k - 1]);
      GenuineExtends(h, leaves, k, data, index, path);
    }
  }

  lemma GenuineExtends(h: Hash, leaves: seq<Bytes>, k: nat, data: Bytes, index: nat, path: seq<Bytes>)
    requires k > 0 && |leaves| == Pow2(k) && |path| == k
    requires Genuine(h, Near(leaves, k, index), k - 1, data, index, path[..k - 1])
    requires Fit(path[k - 1]) == Root(h, Far(leaves, k, index), k - 1)
    ensures Genuine(h, leaves, k, data, index, path)
  {
    var near, all := AuditPath(h, Near(leaves, k, index), k - 1, index), AuditPath(h, leaves, k, index);
    forall i | 0 <= i < k ensures Fit(path[i]) == all[i] {
      if i < k - 1 { assert path[..k - 1][i] == path[i] && all[i] == near[i]; }
    }
  }

  // ---- the verifier --------------------------------------------------------

  /** Decoded parts of a proof; None is a text that is no base64. */
  datatype InclusionProof = InclusionProof(leafIndex: uint64, leafHash: Option<Bytes>, auditPath: seq<Option<Bytes>>)

  ghost predicate AllDecode(steps: seq<Option<Bytes>>) { forall i :: 0 <= i < |steps| ==> steps[i].Some? }

  function Decoded(steps: seq<Option<Bytes>>): (r: seq<Bytes>)
    requires AllDecode(steps)
    ensures |r| == |steps|
  {
    if steps == [] then [] else Decoded(steps[..|steps| - 1]) + [steps[|steps| - 1].value]
  }

  /** The proof names the entry's own leaf hash and leads from it to the root. */
  ghost predicate Accepts(h: Hash, proof: InclusionProof, root: Option<Bytes>, entry: Option<Bytes>) {
    && entry.Some? && proof.leafHash == Some(LeafHash(h, entry.value)) && AllDecode(proof.auditPath)
    && root == Some(Climb(h, entry.value, proof.leafIndex, Decoded(proof.auditPath)))
  }

  /** Byte copy into a buffer from a position on, as much as fits. */
  method Copy(dst: array<byte>, at: nat, src: Bytes)
    requires at <= dst.Length
    modifies dst
    ensures forall i :: 0 <= i < dst.Length ==> dst[i] == if at <= i < at + |src| then src[i - at] else old(dst[i])
  {
    var n := if |src| < dst.Length - at then |src| else dst.Length - at;
    for j := 0 to n
      invariant forall i :: 0 <= i < dst.Length ==> dst[i] == if at <= i < at + j then src[i - at] else old(dst[i])
    {
      dst[at + j] := src[j];
    }
  }

  /** The 65-byte input of one step. */
  method FillNode(bit: nat, node: Bytes, sibling: Bytes) returns (buf: array<byte>)
    requires |node| == 32
    ensures fresh(buf) && buf[..] == JoinInput(bit, node, sibling)
  {
    buf := new byte[65](_ => 0);
    buf[0] := 1;
    if bit == 0 {
      Copy(buf, 1, node);
      Copy(buf, 33, sibling);
    } else {
      Copy(buf, 1, sibling);
      Copy(buf, 33, node);
    }
    assert |JoinInput(bit, node, sibling)| == 65;
    assert forall i :: 0 <= i < 65 ==> buf[i] == JoinInput(bit, node, sibling)[i];
  }

  lemma ClimbStep(h: Hash, data: Bytes, index: nat, path: seq<Bytes>, sibling: Bytes)
    ensures Climb(h, data, index, path + [sibling])
            == h(JoinInput(Bit(index, |path|), Climb(h, data, index, path), sibling))
  {
    assert (path + [sibling])[..|path|] == path;
  }

  lemma DecodedStep(steps: seq<Option<Bytes>>, i: nat)
    requires i < |steps| && AllDecode(steps[..i]) && steps[i].Some?
    ensures AllDecode(steps[..i + 1]) && Decoded(steps[..i + 1]) == Decoded(steps[..i]) + [steps[i].value]
  {
    assert steps[..i + 1][..i] == steps[..i];
  }

  /** The loop over the audit path. */
  method ClimbPath(h: Hash, leaf: Bytes, ghost data: Bytes, index: uint64, steps: seq<Option<Bytes>>)
    returns (r: Option<Bytes>)
    requires Sized(h) && leaf == LeafHash(h, data)
    ensures r.Some? <==> AllDecode(steps)
    ensures r.Some? ==> r.value == Climb(h, data, index, Decoded(steps))
  {
    var nodeHash := leaf;
    ghost var path: seq<Bytes> := [];
    for i := 0 to |steps|
      invariant AllDecode(steps[..i]) && path == Decoded(steps[..i]) && |nodeHash| == 32
      invariant nodeHash == Climb(h, data, index, path)
    {
      var step := steps[i];
      if step.None? { return None; }
      var buf := FillNode(Bit(index, i), nodeHash, step.value);
      ClimbStep(h, data, index, path, step.value);
      DecodedStep(steps, i);
      nodeHash := h(buf[..]);
      path := path + [step.value];
    }
    assert steps[..|steps|] == steps;
    r := Some(nodeHash);
  }

  method VerifyInclusion(h: Hash, proof: InclusionProof, root: Option<Bytes>, entry: Option<Bytes>) returns (ok: bool)
    requires Sized(h)
    ensures ok <==> Accepts(h, proof, root, entry)
  {
    if entry.None? { return false; }
    var leaf := h([0] + entry.value);
    if proof.leafHash.None? || leaf != proof.leafHash.value { return false; }
    var nodeHash := ClimbPath(h, leaf, entry.value, proof.leafIndex, proof.auditPath);
    if nodeHash.None? { return false; }
    ok := root.Some? && nodeHash.value == root.value;
  }

  /** The proof that the log itself would give for an entry. */
  ghost predicate Claims(h: Hash, leaves: seq<Bytes>, k: nat, proof: InclusionProof, entry: Bytes)
    requires |leaves| == Pow2(k) && proof.leafIndex < |leaves| && AllDecode(proof.auditPath)
  {
    && entry == leaves[proof.leafIndex] && proof.leafHash == Some(LeafHash(h, entry))
    && Decoded(proof.auditPath) == AuditPath(h, leaves, k, proof.leafIndex)
  }

  /** On the log's perfect tree: every entry has an accepted proof, and whatever is accepted for an
      index is the entry at that index, unless hashes collide among the inputs at hand. */
  lemma AcceptsExactly(h: Hash, leaves: seq<Bytes>, k: nat, proof: InclusionProof, entry: Bytes)
    requires Sized(h) && |leaves| == Pow2(k) && proof.leafIndex < |leaves| && AllDecode(proof.auditPath)
    requires InjectiveOn(h, TreeInputs(h, leaves, k) + ProofInputs(h, entry, proof.leafIndex, Decoded(proof.auditPath)))
    ensures Accepts(h, proof, Some(Root(h, leaves, k)), Some(entry)) ==> entry == leaves[proof.leafIndex]
    ensures Accepts(h, proof, Some(Root(h, leaves, k)), Some(entry))
            ==> Genuine(h, leaves, k, entry, proof.leafIndex, Decoded(proof.auditPath))
    ensures Claims(h, leaves, k, proof, entry) ==> Accepts(h, proof, Some(Root(h, leaves, k)), Some(entry))
  {
    LeafNumber(leaves, k, proof.leafIndex);
    GenuineAccepted(h, leaves, k, proof.leafIndex);
    if Accepts(h, proof, Some(Root(h, leaves, k)), Some(entry)) {
      AcceptedGenuine(h, leaves, k, entry, proof.leafIndex, Decoded(proof.auditPath));
    }
  }
}

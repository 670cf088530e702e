// Streaming BLAKE2sp (external/libarchive/libarchive/archive_blake2sp_ref.c): eight leaves that take
// the 64-byte blocks of the input in turn, and a root that takes the hashes of the leaves.  The streaming
// form and the one-shot form are both proved to give TreeDigest of the whole input.

module Blake2sp {

  import opened Blake2s
  import opened Wrappers

  const DEGREE := 8
  const STRIPE := 512      // one block for every leaf

  // ---- the hash as a function ----

  // What of the first STRIPE bytes is leaf i's block.
  function Slice(data: seq<Byte>, i: nat): seq<Byte> {
    data[Min(i * BLOCK, |data|)..Min((i + 1) * BLOCK, |data|)]
  }

  // Leaf i's share of the input: every eighth block, from the i-th on.
  function Share(data: seq<Byte>, i: nat): (r: seq<Byte>)
    requires i < DEGREE
    decreases |data|
  {
    if |data| == 0 then []
    else Slice(data, i) + Share(data[Min(STRIPE, |data|)..], i)
  }

  function KeyBlock(key: seq<Byte>): (r: seq<Byte>)
    requires |key| <= OUT
  {
    if |key| == 0 then [] else key + Repeated<Byte>(0, BLOCK - |key|)
  }

  // The lengths are cut to a byte, as in the code.
  function LeafParam(outlen: nat, keylen: nat, i: nat): Param {
    Param(outlen % 256, keylen % 256, DEGREE, 2, i % TWO_TO_THE_32, 0, OUT)
  }

  function RootParam(outlen: nat, keylen: nat): Param {
    Param(outlen % 256, keylen % 256, DEGREE, 2, 0, 1, OUT)
  }

  // The parameter blocks of leaf i and of the root, byte by byte.
  lemma NodeBlocks(outlen: Byte, keylen: Byte, i: Byte)
    requires i < 8
    ensures ParamBlock(LeafParam(outlen, keylen, i))
         == [outlen, keylen, 8, 2, 0, 0, 0, 0, i, 0, 0, 0, 0, 0, 0, 32] + Repeated<Byte>(0, 16)
    ensures ParamBlock(RootParam(outlen, keylen))
         == [outlen, keylen, 8, 2, 0, 0, 0, 0, 0, 0, 0, 0, 0, 0, 1, 32] + Repeated<Byte>(0, 16)
  {
  }

  ghost function LeafDigest(alg: Algorithm, outlen: nat, key: seq<Byte>, data: seq<Byte>, i: nat): seq<Byte>
    requires i < DEGREE && |key| <= OUT
  {
    Digest(alg, alg.start(LeafParam(outlen, |key|, i)), i == DEGREE - 1, KeyBlock(key) + Share(data, i))
  }

  ghost function LeafDigests(alg: Algorithm, outlen: nat, key: seq<Byte>, data: seq<Byte>, n: nat): seq<Byte>
    requires n <= DEGREE && |key| <= OUT
  {
    if n == 0 then [] else LeafDigests(alg, outlen, key, data, n - 1) + LeafDigest(alg, outlen, key, data, n - 1)
  }

  ghost function TreeDigest(alg: Algorithm, outlen: nat, key: seq<Byte>, data: seq<Byte>): seq<Byte>
    requires outlen <= OUT && |key| <= OUT
  {
    Digest(alg, alg.start(RootParam(outlen, |key|)), true, LeafDigests(alg, outlen, key, data, DEGREE))[..outlen]
  }

  // Byte r of leaf i's k-th block is byte r of block i in the k-th stripe, and each has the one when the
  // other has the other: no byte is left out and none is hashed twice.
  lemma {:induction false} ShareAt(data: seq<Byte>, i: nat, k: nat, r: nat)
    requires i < DEGREE && r < BLOCK
    ensures k * BLOCK + r < |Share(data, i)| <==> k * STRIPE + i * BLOCK + r < |data|
    ensures k * BLOCK + r < |Share(data, i)| ==> Share(data, i)[k * BLOCK + r] == data[k * STRIPE + i * BLOCK + r]
    decreases |data|
  {
    hide Share, Slice;
    if |data| <= STRIPE {
      ShareOfStripe(data, i);
      SliceAt(data, i, k, r);
    } else {
      ShareStep(data, i);
      var rest := data[STRIPE..];
      var head, tail := data[i * BLOCK..(i + 1) * BLOCK], Share(rest, i);
      if k > 0 {
        ShareAt(rest, i, k - 1, r);
        var q, p := (k - 1) * BLOCK + r, (k - 1) * STRIPE + i * BLOCK + r;
        assert q < |tail| ==> (head + tail)[BLOCK + q] == tail[q];
        assert p < |rest| ==> rest[p] == data[STRIPE + p];
      } else {
        assert (head + tail)[r] == head[r] == data[i * BLOCK + r];
      }
    }
  }

  lemma SliceAt(data: seq<Byte>, i: nat, k: nat, r: nat)
    requires i < DEGREE && r < BLOCK && |data| <= STRIPE
    ensures k * BLOCK + r < |Slice(data, i)| <==> k * STRIPE + i * BLOCK + r < |data|
    ensures k * BLOCK + r < |Slice(data, i)| ==> Slice(data, i)[k * BLOCK + r] == data[k * STRIPE + i * BLOCK + r]
  {
  }

  lemma ShareStep(data: seq<Byte>, i: nat)
    requires i < DEGREE && |data| >= STRIPE
    ensures Share(data, i) == data[i * BLOCK..(i + 1) * BLOCK] + Share(data[STRIPE..], i)
  {
  }

  lemma ShareStepMore(data: seq<Byte>, more: seq<Byte>, i: nat)
    requires i < DEGREE && |data| >= STRIPE
    requires Share(data[STRIPE..] + more, i) == Share(data[STRIPE..], i) + Share(more, i)
    ensures Share(data + more, i) == Share(data, i) + Share(more, i)
  {
    hide Share;
    var all := data + more;
    ShareStep(data, i);
    ShareStep(all, i);
    assert all[STRIPE..] == data[STRIPE..] + more;
    var block := data[i * BLOCK..(i + 1) * BLOCK];
    assert all[i * BLOCK..(i + 1) * BLOCK] == block;
    var a, b := Share(data[STRIPE..], i), Share(more, i);
    assert block + (a + b) == (block + a) + b;
  }

  // Shares can be taken stripe by stripe.
  lemma {:induction false} ShareOfStripes(data: seq<Byte>, more: seq<Byte>, i: nat, n: nat)
    requires i < DEGREE && |data| == n * STRIPE
    ensures Share(data + more, i) == Share(data, i) + Share(more, i)
    decreases n
  {
    if n == 0 {
      assert data + more == more;
    } else {
      hide Share;
      ShareOfStripes(data[STRIPE..], more, i, n - 1);
      ShareStepMore(data, more, i);
    }
  }

  lemma ShareOfWhole(data: seq<Byte>, more: seq<Byte>, i: nat)
    requires i < DEGREE && |data| % STRIPE == 0
    ensures Share(data + more, i) == Share(data, i) + Share(more, i)
  {
    ShareOfStripes(data, more, i, |data| / STRIPE);
  }

  lemma ShareOfStripe(data: seq<Byte>, i: nat)
    requires i < DEGREE && |data| <= STRIPE
    ensures Share(data, i) == Slice(data, i)
  {
    if |data| > 0 { assert data[|data|..] == []; }
  }

  // Of what is held back and what comes, the whole stripes go on and less than a stripe stays.
  lemma StripesApart(given: seq<Byte>, held: seq<Byte>, rest: seq<Byte>)
    requires |given| % STRIPE == 0 && (|held| == 0 || |rest| < STRIPE - |held|) && |held| < STRIPE
    ensures var whole := |rest| - |rest| % STRIPE;
      var front, back, all := given + rest[..whole], held + rest[whole..], given + held + rest;
      && |front| % STRIPE == 0 && |back| < STRIPE && |all| == |front| + |back|
      && all[..|front|] == front && all[|front|..] == back
  {
  }

  // ---- the streaming state ----

  class Blake2sp {
    const alg: Algorithm
    const buf: array<Byte>
    const leaves: seq<Blake2s>
    const root: Blake2s
    const outlen: nat
    ghost const key: seq<Byte>
    var buflen: nat
    ghost var fed: seq<Byte>

    // The leaves are states of their own, each with its own buffer.
    ghost predicate Apart() {
      && |leaves| == DEGREE && buf.Length == STRIPE
      && (forall i :: 0 <= i < DEGREE ==>
            leaves[i] != root && leaves[i].buf != root.buf && leaves[i].buf != buf && leaves[i].alg == alg)
      && (forall i, j :: 0 <= i < j < DEGREE ==> leaves[i] != leaves[j] && leaves[i].buf != leaves[j].buf)
      && root.buf != buf && root.alg == alg
    }

    ghost function LeafBufs(): set<array<Byte>> {
      set i | 0 <= i < |leaves| :: leaves[i].buf
    }

    // Leaf i has been given this.
    ghost predicate LeafHas(i: nat, data: seq<Byte>)
      requires i < |leaves|
      reads leaves[i], leaves[i].buf
    {
      && leaves[i].Valid() && leaves[i].fed == data
      && leaves[i].start == alg.start(LeafParam(outlen, |key|, i)) && leaves[i].lastNode == (i == DEGREE - 1)
      && leaves[i].outlen == OUT
    }

    ghost predicate LeafTook(i: nat, data: seq<Byte>)
      requires i < |leaves| == DEGREE && |key| <= OUT
      reads leaves[i], leaves[i].buf
    {
      LeafHas(i, KeyBlock(key) + Share(data, i))
    }

    ghost predicate LeavesTook(data: seq<Byte>)
      requires |leaves| == DEGREE && |key| <= OUT
      reads leaves, LeafBufs()
    {
      forall i :: 0 <= i < DEGREE ==> LeafTook(i, data)
    }

    ghost predicate RootHas(data: seq<Byte>)
      reads root, root.buf
    {
      && root.Valid() && root.fed == data && root.start == alg.start(RootParam(outlen, |key|)) && root.lastNode
      && root.outlen == outlen
    }

    // All of the input but the part of a stripe that is in the buffer has gone to the leaves.
    ghost predicate Valid()
      reads this, buf, leaves, LeafBufs(), root, root.buf
    {
      && Apart() && |key| <= OUT && 0 < outlen <= OUT
      && buflen < STRIPE && buflen <= |fed| && (|fed| - buflen) % STRIPE == 0
      && buf[..buflen] == fed[|fed| - buflen..]
      && LeavesTook(fed[..|fed| - buflen])
      && RootHas([])
    }

    constructor Of(alg: Algorithm, outlen: nat, key: seq<Byte>, root: Blake2s, leaves: seq<Blake2s>)
      requires 0 < outlen <= OUT && |key| <= OUT && |leaves| == DEGREE
      requires NewRoot(root, alg, outlen, key)
      requires forall i :: 0 <= i < DEGREE ==> NewLeaf(leaves[i], alg, outlen, key, i)
      requires forall i :: 0 <= i < DEGREE ==> leaves[i] != root && leaves[i].buf != root.buf && leaves[i].alg == alg
      requires forall i, j :: 0 <= i < j < DEGREE ==> leaves[i] != leaves[j] && leaves[i].buf != leaves[j].buf
      ensures Valid() && fed == [] && this.alg == alg && this.outlen == outlen && this.key == key
      ensures this.root == root && this.leaves == leaves && fresh(buf)
    {
      this.alg, this.outlen, this.key, buflen, fed := alg, outlen, key, 0, [];
      this.root, this.leaves := root, leaves;
      buf := new Byte[STRIPE](_ => 0);
      new;
      assert buf.Length == STRIPE && |leaves| == DEGREE;
      hide *;
      StartIsValid();
    }

    lemma StartIsValid()
      requires 0 < outlen <= OUT && |key| <= OUT && |leaves| == DEGREE && buf.Length == STRIPE && buflen == 0
        && fed == []
      requires NewRoot(root, alg, outlen, key)
      requires forall i :: 0 <= i < DEGREE ==> NewLeaf(leaves[i], alg, outlen, key, i)
      requires forall i :: 0 <= i < DEGREE ==> leaves[i] != root && leaves[i].buf != root.buf && leaves[i].alg == alg
      requires forall i, j :: 0 <= i < j < DEGREE ==> leaves[i] != leaves[j] && leaves[i].buf != leaves[j].buf
      requires root.buf != buf && forall i :: 0 <= i < DEGREE ==> leaves[i].buf != buf
      ensures Valid()
    {
      hide Blake2s.Valid, KeyBlock, Share, NewLeaf, LeavesTook;
      NothingTaken();
      assert fed[..|fed| - buflen] == [];
    }

    // blake2sp_init and blake2sp_init_key, the key empty for the former.
    static method Init(alg: Algorithm, outlen: nat, key: seq<Byte>) returns (s: Blake2sp)
      requires 0 < outlen <= OUT && |key| <= OUT
      ensures s.Valid() && s.fed == [] && s.alg == alg && s.outlen == outlen && s.key == key
      ensures fresh(s) && fresh(s.buf) && fresh(s.leaves) && fresh(s.LeafBufs()) && fresh(s.root) && fresh(s.root.buf)
    {
      hide Blake2s.Valid, NewLeaf, Blake2sp.Valid;
      var root := new Blake2s(alg, RootParam(outlen, |key|));
      root.MarkLastNode(true);
      var leaves := NewLeaves(alg, outlen, key);
      s := new Blake2sp.Of(alg, outlen, key, root, leaves);
    }

    ghost static predicate NewRoot(root: Blake2s, alg: Algorithm, outlen: nat, key: seq<Byte>)
      reads root, root.buf
    {
      && root.Valid() && root.fed == [] && root.start == alg.start(RootParam(outlen, |key|))
      && root.lastNode && root.outlen == outlen && root.alg == alg
    }

    lemma NothingTaken()
      requires |leaves| == DEGREE && |key| <= OUT
      requires forall i :: 0 <= i < DEGREE ==> NewLeaf(leaves[i], alg, outlen, key, i)
      ensures LeavesTook([])
    {
      hide Blake2s.Valid, KeyBlock;
      forall i | 0 <= i < DEGREE ensures LeafTook(i, []) {
        assert NewLeaf(leaves[i], alg, outlen, key, i);
        assert KeyBlock(key) + Share([], i) == KeyBlock(key);
      }
    }

    static method NewLeaves(alg: Algorithm, outlen: nat, key: seq<Byte>) returns (all: seq<Blake2s>)
      requires |key| <= OUT
      ensures |all| == DEGREE
      ensures forall i :: 0 <= i < DEGREE ==> NewLeaf(all[i], alg, outlen, key, i)
      ensures forall i :: 0 <= i < DEGREE ==> fresh(all[i]) && fresh(all[i].buf) && all[i].alg == alg
      ensures forall i, j :: 0 <= i < j < DEGREE ==> all[i] != all[j] && all[i].buf != all[j].buf
    {
      hide Blake2s.Valid, LeafParam, KeyBlock;
      all := [];
      for i := 0 to DEGREE
        invariant |all| == i
        invariant forall j :: 0 <= j < i ==> NewLeaf(all[j], alg, outlen, key, j) && fresh(all[j]) && fresh(all[j].buf)
        invariant forall j, k :: 0 <= j < k < i ==> all[j] != all[k] && all[j].buf != all[k].buf
      {
        var leaf := MakeLeaf(alg, outlen, key, i);
        all := all + [leaf];
      }
    }

    // A leaf puts out a whole hash, whatever the length of the tree's is, and starts with the padded key.
    static method MakeLeaf(alg: Algorithm, outlen: nat, key: seq<Byte>, i: nat) returns (leaf: Blake2s)
      requires |key| <= OUT
      ensures NewLeaf(leaf, alg, outlen, key, i) && fresh(leaf) && fresh(leaf.buf) && leaf.alg == alg
    {
      hide LeafParam, ParamBlock;
      leaf := new Blake2s(alg, LeafParam(outlen, |key|, i));
      leaf.outlen := OUT;
      leaf.lastNode := i == DEGREE - 1;
      if |key| > 0 { leaf.Update(key + Repeated<Byte>(0, BLOCK - |key|)); }
    }

    ghost static predicate NewLeaf(leaf: Blake2s, alg: Algorithm, outlen: nat, key: seq<Byte>, i: nat)
      requires |key| <= OUT
      reads leaf, leaf.buf
    {
      && leaf.Valid() && leaf.fed == KeyBlock(key) && leaf.start == alg.start(LeafParam(outlen, |key|, i))
      && leaf.lastNode == (i == DEGREE - 1) && leaf.outlen == OUT && leaf.alg == alg
    }

    // Leaf i's block of a stripe goes in, if it has one.
    method FeedBlock(i: nat, stripe: seq<Byte>, ghost data: seq<Byte>)
      requires i < |leaves| == DEGREE && |key| <= OUT && |stripe| <= STRIPE && |data| % STRIPE == 0 && LeafTook(i, data)
      modifies leaves[i], leaves[i].buf
      ensures LeafTook(i, data + stripe)
    {
      hide Blake2s.Valid;
      ShareOfWhole(data, stripe, i);
      ShareOfStripe(stripe, i);
      if |stripe| > i * BLOCK {
        leaves[i].Update(Slice(stripe, i));
      }
      assert KeyBlock(key) + Share(data, i) + Slice(stripe, i) == KeyBlock(key) + Share(data + stripe, i);
    }

    // Whole stripes go to a leaf straight from the input.
    method FeedLeaf(i: nat, input: seq<Byte>, ghost data: seq<Byte>)
      requires i < |leaves| == DEGREE && |key| <= OUT && |data| % STRIPE == 0 && LeafTook(i, data)
      modifies leaves[i], leaves[i].buf
      ensures LeafTook(i, data + input[..|input| - |input| % STRIPE])
    {
      hide LeafTook;
      var pos := 0;
      assert data + input[..0] == data;
      while |input| - pos >= STRIPE
        invariant 0 <= pos <= |input| && pos % STRIPE == 0
        invariant LeafTook(i, data + input[..pos])
      {
        var stripe := input[pos..pos + STRIPE];
        FeedBlock(i, stripe, data + input[..pos]);
        assert data + input[..pos] + stripe == data + input[..pos + STRIPE];
        pos := pos + STRIPE;
      }
    }

    // The stripes of the input, one leaf after the other; the leaves do not affect each other.
    method FeedLeaves(input: seq<Byte>, ghost data: seq<Byte>)
      requires Apart() && |key| <= OUT && |data| % STRIPE == 0 && LeavesTook(data)
      modifies leaves, LeafBufs()
      ensures LeavesTook(data + input[..|input| - |input| % STRIPE])
    {
      hide LeafTook;
      ghost var after := data + input[..|input| - |input| % STRIPE];
      for i := 0 to DEGREE
        invariant forall j :: 0 <= j < i ==> LeafTook(j, after)
        invariant forall j :: i <= j < DEGREE ==> LeafTook(j, data)
      {
        FeedLeaf(i, input, data);
      }
    }

    // memcpy into the buffer
    method Append(bytes: seq<Byte>)
      requires buf.Length == STRIPE && buflen + |bytes| <= STRIPE
      modifies `buflen, buf
      ensures buflen == old(buflen) + |bytes| && buf[..buflen] == old(buf[..buflen]) + bytes
    {
      for i := 0 to |bytes|
        invariant buflen == old(buflen) && buf[..buflen + i] == old(buf[..buflen]) + bytes[..i]
      {
        buf[buflen + i] := bytes[i];
      }
      buflen := buflen + |bytes|;
    }

    lemma BufferLength()
      requires Apart()
      ensures buf.Length == STRIPE && |leaves| == DEGREE && root.buf != buf
      ensures buf !in LeafBufs() && root.buf !in LeafBufs() && root !in leaves
    {
    }

    // The first part of an update: the input that fills up the buffered stripe.
    method TopUp(input: seq<Byte>) returns (pos: nat)
      requires Valid()
      modifies this, buf, leaves, LeafBufs()
      ensures Valid() && pos <= |input| && fed == old(fed) + input[..pos]
      ensures buflen == 0 || (pos == 0 && |input| < STRIPE - buflen)
    {
      hide LeavesTook, Blake2s.Valid, RootHas, Share, KeyBlock, LeafTook, LeafHas, Apart;
      BufferLength();
      var fill := STRIPE - buflen;
      ghost var given := fed[..|fed| - buflen];
      assert fed == given + buf[..buflen];
      if buflen == 0 || |input| < fill {
        assert fed + input[..0] == fed;
        return 0;
      }
      Append(input[..fill]);
      var stripe := buf[..];
      FeedLeaves(stripe, given);
      assert stripe[..|stripe| - |stripe| % STRIPE] == stripe;
      buflen := 0;
      fed := fed + input[..fill];
      assert fed == given + stripe && fed[..|fed| - buflen] == fed;
      return fill;
    }

    // The second part: whole stripes go to the leaves, and what is left is buffered.
    method FeedRest(rest: seq<Byte>)
      requires Valid() && (buflen == 0 || |rest| < STRIPE - buflen)
      modifies this, buf, leaves, LeafBufs()
      ensures Valid() && fed == old(fed) + rest
    {
      hide LeavesTook, Blake2s.Valid, RootHas, Share, KeyBlock, LeafTook, LeafHas, Apart;
      BufferLength();
      ghost var given, held := fed[..|fed| - buflen], buf[..buflen];
      assert fed == given + held;
      var whole := |rest| - |rest| % STRIPE;
      StripesApart(given, held, rest);
      FeedLeaves(rest, given);
      Append(rest[whole..]);
      fed := fed + rest;
    }

    // blake2sp_update: however the input is cut into pieces, it is the same as putting it in at once.
    method Update(input: seq<Byte>)
      requires Valid()
      modifies this, buf, leaves, LeafBufs()
      ensures Valid() && fed == old(fed) + input
    {
      hide Valid;
      var pos := TopUp(input);
      FeedRest(input[pos..]);
      assert input[..pos] + input[pos..] == input;
    }

    // A leaf takes its part of the last stripe and is finished.
    method FinishLeaf(i: nat, stripe: seq<Byte>, ghost data: seq<Byte>) returns (hash: seq<Byte>)
      requires i < |leaves| == DEGREE && |key| <= OUT && |stripe| <= STRIPE && |data| % STRIPE == 0 && LeafTook(i, data)
      requires leaves[i].alg == alg
      modifies leaves[i], leaves[i].buf
      ensures hash == LeafDigest(alg, outlen, key, data + stripe, i)
    {
      hide Share, Digest;
      FeedBlock(i, stripe, data);
      var ok: bool;
      hash, ok := leaves[i].Final(OUT);
      assert hash == hash[..OUT];
    }

    // Every leaf is finished; the root does not change.
    method FinishLeaves(stripe: seq<Byte>, ghost data: seq<Byte>) returns (hashes: seq<seq<Byte>>)
      requires Apart() && |key| <= OUT && |stripe| <= STRIPE && |data| % STRIPE == 0 && LeavesTook(data)
      modifies leaves, LeafBufs()
      ensures |hashes| == DEGREE
      ensures forall i :: 0 <= i < DEGREE ==> hashes[i] == LeafDigest(alg, outlen, key, data + stripe, i)
    {
      hide LeafTook, Share, Digest, LeafDigest;
      hashes := [];
      for i := 0 to DEGREE
        invariant |hashes| == i
        invariant forall j :: 0 <= j < i ==> hashes[j] == LeafDigest(alg, outlen, key, data + stripe, j)
        invariant forall j :: i <= j < DEGREE ==> LeafTook(j, data)
      {
        var hash := FinishLeaf(i, stripe, data);
        hashes := hashes + [hash];
      }
    }

    // The root takes the hashes in order.
    method FinishRoot(hashes: seq<seq<Byte>>, ghost data: seq<Byte>) returns (out: seq<Byte>)
      requires |hashes| == DEGREE && |key| <= OUT && outlen <= OUT && root.alg == alg && RootHas([])
      requires forall i :: 0 <= i < DEGREE ==> hashes[i] == LeafDigest(alg, outlen, key, data, i)
      modifies root, root.buf
      ensures out == TreeDigest(alg, outlen, key, data)
    {
      hide Blake2s.Valid, Digest, LeafDigest;
      for i := 0 to DEGREE
        invariant RootHas(LeafDigests(alg, outlen, key, data, i))
      {
        root.Update(hashes[i]);
      }
      var ok: bool;
      out, ok := root.Final(outlen);
    }

    // blake2sp_final: the digest of all that was put in.
    method Final(outlen: nat) returns (out: seq<Byte>, ok: bool)
      requires Valid()
      modifies leaves, LeafBufs(), root, root.buf
      ensures ok <==> outlen >= this.outlen
      ensures ok ==> out == TreeDigest(alg, this.outlen, key, fed)
    {
      if outlen < this.outlen { return [], false; }
      hide LeavesTook, Blake2s.Valid, Share, Digest, LeafDigest, TreeDigest;
      var stripe := buf[..buflen];
      ghost var data := fed[..|fed| - buflen];
      assert fed == data + stripe;
      var hashes := FinishLeaves(stripe, data);
      out := FinishRoot(hashes, fed);
      ok := true;
    }
  }

  lemma ShareOfNothing(before: seq<Byte>, input: seq<Byte>, i: nat)
    requires i < DEGREE
    ensures before + Share(input[..0], i) == before
  {
  }

  lemma Regrouped(a: seq<Byte>, b: seq<Byte>, c: seq<Byte>)
    ensures a + b + c == a + (b + c)
  {
  }

  // One leaf of the one-shot form: its block of every whole stripe ...
  method HashStripes(leaf: Blake2s, input: seq<Byte>, i: nat) returns (pos: nat)
    requires leaf.Valid() && i < DEGREE
    modifies leaf, leaf.buf
    ensures pos == |input| - |input| % STRIPE
    ensures leaf.Valid() && leaf.fed == old(leaf.fed) + Share(input[..pos], i)
    ensures leaf.start == old(leaf.start) && leaf.lastNode == old(leaf.lastNode) && leaf.outlen == old(leaf.outlen)
  {
    hide Blake2s.Valid, Share;
    ghost var before := leaf.fed;
    pos := 0;
    ShareOfNothing(before, input, i);
    while |input| - pos >= STRIPE
      invariant 0 <= pos <= |input| && pos % STRIPE == 0
      invariant leaf.Valid() && leaf.fed == before + Share(input[..pos], i)
      invariant leaf.start == old(leaf.start) && leaf.lastNode == old(leaf.lastNode) && leaf.outlen == old(leaf.outlen)
    {
      ShareOfNext(input, pos, STRIPE, i);
      ghost var sofar := Share(input[..pos], i);
      var block := input[pos + i * BLOCK..pos + (i + 1) * BLOCK];
      leaf.Update(block);
      Regrouped(before, sofar, block);
      pos := pos + STRIPE;
    }
  }

  // ... then of the last one.
  method HashLeaf(leaf: Blake2s, input: seq<Byte>, i: nat) returns (hash: seq<Byte>)
    requires leaf.Valid() && i < DEGREE && leaf.outlen == OUT
    modifies leaf, leaf.buf
    ensures hash == Digest(leaf.alg, old(leaf.start), old(leaf.lastNode), old(leaf.fed) + Share(input, i))
  {
    hide Blake2s.Valid, Digest, Share;
    ghost var before := leaf.fed;
    var pos := HashStripes(leaf, input, i);
    ShareOfNext(input, pos, |input| - pos, i);
    assert input[..|input|] == input;
    ghost var sofar := Share(input[..pos], i);
    var end := Min(pos + (i + 1) * BLOCK, |input|);
    if |input| - pos > i * BLOCK {
      var block := input[pos + i * BLOCK..end];
      leaf.Update(block);
      assert before + sofar + block == before + (sofar + block);
    } else {
      assert sofar + input[|input|..|input|] == sofar;
    }
    var ok: bool;
    hash, ok := leaf.Final(OUT);
    assert hash == hash[..OUT];
  }

  lemma ShareOfNext(input: seq<Byte>, pos: nat, n: nat, i: nat)
    requires pos + n <= |input| && n <= STRIPE && pos % STRIPE == 0 && i < DEGREE
    ensures Share(input[..pos + n], i)
         == Share(input[..pos], i) + input[pos + Min(i * BLOCK, n)..pos + Min((i + 1) * BLOCK, n)]
  {
    hide Share;
    var next := input[pos..pos + n];
    assert input[..pos] + next == input[..pos + n];
    ShareOfWhole(input[..pos], next, i);
    ShareOfStripe(next, i);
    SliceOfSlice(input, pos, pos + n, Min(i * BLOCK, n), Min((i + 1) * BLOCK, n));
  }

  lemma SliceOfSlice(s: seq<Byte>, a: nat, b: nat, c: nat, d: nat)
    requires a <= b <= |s| && c <= d <= b - a
    ensures s[a..b][c..d] == s[a + c..a + d]
  {
    assert |s[a..b][c..d]| == d - c;
    assert forall k :: 0 <= k < d - c ==> s[a..b][c..d][k] == s[a + c..a + d][k];
  }

  method HashRoot(alg: Algorithm, outlen: nat, input: seq<Byte>, key: seq<Byte>, hashes: seq<seq<Byte>>)
    returns (out: seq<Byte>, ok: bool)
    requires 0 < outlen <= OUT && |key| <= OUT && |hashes| == DEGREE
    requires forall i :: 0 <= i < DEGREE ==> hashes[i] == LeafDigest(alg, outlen, key, input, i)
    ensures ok && out == TreeDigest(alg, outlen, key, input)
  {
    hide Blake2s.Valid, Digest, LeafDigest;
    var root := new Blake2s(alg, RootParam(outlen, |key|));
    root.MarkLastNode(true);
    for i := 0 to DEGREE
      invariant root.Valid() && root.fed == LeafDigests(alg, outlen, key, input, i) && root.lastNode
      invariant root.start == alg.start(RootParam(outlen, |key|)) && root.outlen == outlen && fresh(root)
        && fresh(root.buf)
    {
      root.Update(hashes[i]);
    }
    out, ok := root.Final(outlen);
  }

  method HashNewLeaf(alg: Algorithm, outlen: nat, input: seq<Byte>, key: seq<Byte>, leaf: Blake2s, i: nat)
    returns (hash: seq<Byte>)
    requires |key| <= OUT && i < DEGREE && Blake2sp.NewLeaf(leaf, alg, outlen, key, i)
    modifies leaf, leaf.buf
    ensures hash == LeafDigest(alg, outlen, key, input, i)
  {
    hide Blake2s.Valid, Share, Digest;
    hash := HashLeaf(leaf, input, i);
  }

  method HashLeaves(alg: Algorithm, outlen: nat, input: seq<Byte>, key: seq<Byte>) returns (hashes: seq<seq<Byte>>)
    requires |key| <= OUT
    ensures |hashes| == DEGREE
    ensures forall i :: 0 <= i < DEGREE ==> hashes[i] == LeafDigest(alg, outlen, key, input, i)
  {
    hide Blake2sp.NewLeaf, LeafDigest;
    var leaves := Blake2sp.NewLeaves(alg, outlen, key);
    hashes := [];
    for i := 0 to DEGREE
      invariant |hashes| == i
      invariant forall j :: 0 <= j < i ==> hashes[j] == LeafDigest(alg, outlen, key, input, j)
      invariant forall j :: i <= j < DEGREE ==> Blake2sp.NewLeaf(leaves[j], alg, outlen, key, j)
    {
      var hash := HashNewLeaf(alg, outlen, input, key, leaves[i], i);
      hashes := hashes + [hash];
    }
  }

  // blake2sp: the whole hash in one call.
  method Hash(alg: Algorithm, outlen: nat, input: seq<Byte>, key: seq<Byte>) returns (out: seq<Byte>, ok: bool)
    ensures ok <==> 0 < outlen <= OUT && |key| <= OUT
    ensures ok ==> out == TreeDigest(alg, outlen, key, input)
  {
    if outlen == 0 || outlen > OUT || |key| > OUT { return [], false; }
    hide TreeDigest, LeafDigest;
    var hashes := HashLeaves(alg, outlen, input, key);
    out, ok := HashRoot(alg, outlen, input, key, hashes);
  }
}

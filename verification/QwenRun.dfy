/** kernel/src/lm_qwen.rs: the forward pass over the caches, and `generate`.  What the cache is for:
    the tokens are those of a model that recomputes attention over the whole text each time. */
module QwenRun {
  import opened Prelude
  import opened QwenMat
  import opened QwenCache

  const MAX_GEN: nat := 128
  const EOS_TOKEN: nat := 151645   // also IM_END

  // ----- The network -----------------------------------------------------------------------

  /** Query, key and value vectors of one position in one layer. */
  datatype Proj = Proj(q: Vec, k: Vec, v: Vec)

  /** The parts of the network that look at one position only: the embedding of a token; a layer's
      projections (norm, matrices, biases, rotation by the position); what a layer makes of its
      input and the attention heads (output projection, feed-forward part, both residuals); the
      logits of the last layer's output; and the token sampled from logits and earlier tokens. */
  datatype Net = Net(
    env: Env,
    embed: nat -> Vec,
    project: (nat, nat, Vec) -> Proj,
    finish: (nat, Vec, seq<Vec>) -> Vec,
    head: Vec -> Vec,
    pick: (Vec, seq<nat>) -> nat)

  ghost predicate ProjOk(a: Arch, p: Proj) {
    |p.q| == Times(a.nHeads, a.headDim) && |p.k| == |p.v| == a.KvDim()
  }

  ghost predicate NetOk(a: Arch, net: Net) {
    ArchOk(a) && SoftOk(net.env) && forall li, t, x :: ProjOk(a, net.project(li, t, x))
  }

  // ----- Recomputing everything --------------------------------------------------------------

  datatype Kind = Key | Value

  function Of(p: Proj, kind: Kind): Vec { if kind.Key? then p.k else p.v }

  /** What layer `li` makes of its input at position `t`, given the keys and values up to there. */
  ghost function LayerOut(a: Arch, net: Net, li: nat, t: nat, x: Vec, keys: seq<Vec>, values: seq<Vec>): Vec
    requires NetOk(a, net) && VecsOk(a, keys) && VecsOk(a, values) && |keys| == |values|
  {
    assert ProjOk(a, net.project(li, t, x));
    net.finish(li, x, Attention(a, net.env, keys, values, net.project(li, t, x).q))
  }

  /** The keys or values of layer `li` at the first `n` positions, from the layer's inputs. */
  ghost function Vecs(a: Arch, net: Net, li: nat, xs: seq<Vec>, n: nat, kind: Kind): (r: seq<Vec>)
    requires NetOk(a, net) && n <= |xs|
    ensures |r| == n && forall t :: 0 <= t < n ==> r[t] == Of(net.project(li, t, xs[t]), kind)
    ensures VecsOk(a, r)
  {
    assert forall t :: 0 <= t < n ==> ProjOk(a, net.project(li, t, xs[t]));
    seq(n, t requires 0 <= t < n => Of(net.project(li, t, xs[t]), kind))
  }

  /** One layer at all positions, each attending over the positions up to its own. */
  ghost function NextLayer(a: Arch, net: Net, li: nat, xs: seq<Vec>): (r: seq<Vec>)
    requires NetOk(a, net)
    ensures |r| == |xs|
    ensures forall t :: 0 <= t < |xs| ==> r[t] == OutAt(a, net, li, xs, t)
  {
    seq(|xs|, t requires 0 <= t < |xs| => OutAt(a, net, li, xs, t))
  }

  ghost function OutAt(a: Arch, net: Net, li: nat, xs: seq<Vec>, t: nat): Vec
    requires NetOk(a, net) && t < |xs|
  {
    LayerOut(a, net, li, t, xs[t], Vecs(a, net, li, xs, t + 1, Key), Vecs(a, net, li, xs, t + 1, Value))
  }

  /** The inputs of layer `li` at every position of a text, from scratch. */
  ghost function Inputs(a: Arch, net: Net, toks: seq<nat>, li: nat): (r: seq<Vec>)
    requires NetOk(a, net)
    ensures |r| == |toks|
  {
    if li == 0 then seq(|toks|, t requires 0 <= t < |toks| => net.embed(toks[t]))
    else NextLayer(a, net, li - 1, Inputs(a, net, toks, li - 1))
  }

  /** The logits after a text; before the first token, those `left` over from the last run. */
  ghost function LogitsAfter(a: Arch, net: Net, left: Vec, toks: seq<nat>): Vec
    requires NetOk(a, net)
  {
    if toks == [] then left else net.head(Inputs(a, net, toks, a.nLayers)[|toks| - 1])
  }

  /** Generation without a cache. */
  ghost function Continue(a: Arch, net: Net, left: Vec, tail: seq<nat>, gen: seq<nat>): seq<nat>
    requires NetOk(a, net)
    decreases MAX_GEN - |gen|
  {
    if |gen| >= MAX_GEN then gen
    else
      var next := net.pick(LogitsAfter(a, net, left, tail + gen), gen);
      if next == EOS_TOKEN then gen else Continue(a, net, left, tail, gen + [next])
  }

  /** The layers' equation: the output at position `t` combines the input there with the attention
      of its query over the keys and values of positions 0 to `t`, each projected with its own
      position. */
  lemma {:induction false} LayerEquation(a: Arch, net: Net, toks: seq<nat>, li: nat, t: nat, keys: seq<Vec>, values: seq<Vec>)
    requires NetOk(a, net) && t < |toks| && |keys| == |values| == t + 1
    requires forall s :: 0 <= s <= t ==> keys[s] == net.project(li, s, Inputs(a, net, toks, li)[s]).k
    requires forall s :: 0 <= s <= t ==> values[s] == net.project(li, s, Inputs(a, net, toks, li)[s]).v
    ensures Inputs(a, net, toks, 0)[t] == net.embed(toks[t])
    ensures VecsOk(a, keys) && VecsOk(a, values)
    ensures var x := Inputs(a, net, toks, li)[t];
      && |net.project(li, t, x).q| == Times(a.nHeads, a.headDim)
      && Inputs(a, net, toks, li + 1)[t] == net.finish(li, x, Attention(a, net.env, keys, values, net.project(li, t, x).q))
  {
    var xs := Inputs(a, net, toks, li);
    assert forall s :: 0 <= s <= t ==> ProjOk(a, net.project(li, s, xs[s]));
    assert keys == Vecs(a, net, li, xs, t + 1, Key);
    assert values == Vecs(a, net, li, xs, t + 1, Value);
    assert Inputs(a, net, toks, li + 1)[t] == OutAt(a, net, li, xs, t);
  }

  lemma {:induction false} OutPrefix(a: Arch, net: Net, li: nat, xs: seq<Vec>, n: nat, t: nat)
    requires NetOk(a, net) && t < n <= |xs|
    ensures OutAt(a, net, li, xs[..n], t) == OutAt(a, net, li, xs, t)
  {
    VecsPrefix(a, net, li, xs, n, t + 1, Key);
    VecsPrefix(a, net, li, xs, n, t + 1, Value);
  }

  lemma {:induction false} VecsPrefix(a: Arch, net: Net, li: nat, xs: seq<Vec>, n: nat, k: nat, kind: Kind)
    requires NetOk(a, net) && k <= n <= |xs|
    ensures Vecs(a, net, li, xs[..n], k, kind) == Vecs(a, net, li, xs, k, kind)
  {}

  /** Attention looks back only: a later token changes nothing before it. */
  lemma {:induction false} InputsPrefix(a: Arch, net: Net, toks: seq<nat>, tok: nat, li: nat)
    requires NetOk(a, net)
    ensures Inputs(a, net, toks + [tok], li)[..|toks|] == Inputs(a, net, toks, li)
  {
    if li > 0 {
      InputsPrefix(a, net, toks, tok, li - 1);
      LayerPrefix(a, net, li - 1, Inputs(a, net, toks + [tok], li - 1), |toks|);
    }
  }

  lemma {:induction false} LayerPrefix(a: Arch, net: Net, li: nat, xs: seq<Vec>, n: nat)
    requires NetOk(a, net) && n <= |xs|
    ensures NextLayer(a, net, li, xs)[..n] == NextLayer(a, net, li, xs[..n])
  {
    var all, some := NextLayer(a, net, li, xs), NextLayer(a, net, li, xs[..n]);
    forall t | 0 <= t < n
      ensures all[t] == some[t]
    {
      OutPrefix(a, net, li, xs, n, t);
    }
  }

  // ----- What the caches hold -------------------------------------------------------------------

  /** The keys or values of layer `li` at the first `n` positions of a text. */
  ghost function Row(a: Arch, net: Net, toks: seq<nat>, li: nat, n: nat, kind: Kind): (r: seq<Vec>)
    requires NetOk(a, net) && n <= |toks|
    ensures |r| == n && VecsOk(a, r)
  {
    Vecs(a, net, li, Inputs(a, net, toks, li), n, kind)
  }

  /** All positions of a text but the last in every layer, and the last one in the first `done` layers. */
  ghost function RowsUpTo(a: Arch, net: Net, toks: seq<nat>, done: nat, kind: Kind): (r: Rows)
    requires NetOk(a, net) && toks != []
    ensures |r| == a.nLayers
    ensures forall li :: 0 <= li < a.nLayers ==>
      r[li] == Row(a, net, toks, li, if li < done then |toks| else |toks| - 1, kind)
  {
    seq(a.nLayers, li requires 0 <= li < a.nLayers =>
      Row(a, net, toks, li, if li < done then |toks| else |toks| - 1, kind))
  }

  ghost function RowsOf(a: Arch, net: Net, toks: seq<nat>, kind: Kind): (r: Rows)
    requires NetOk(a, net)
    ensures |r| == a.nLayers
    ensures forall li :: 0 <= li < a.nLayers ==> r[li] == Row(a, net, toks, li, |toks|, kind)
  {
    seq(a.nLayers, li requires 0 <= li < a.nLayers => Row(a, net, toks, li, |toks|, kind))
  }

  /** The last token's vectors are still missing. */
  lemma {:induction false} RowsStart(a: Arch, net: Net, toks: seq<nat>, tok: nat, kind: Kind)
    requires NetOk(a, net)
    ensures RowsUpTo(a, net, toks + [tok], 0, kind) == RowsOf(a, net, toks, kind)
  {
    forall li | 0 <= li < a.nLayers
      ensures RowsUpTo(a, net, toks + [tok], 0, kind)[li] == RowsOf(a, net, toks, kind)[li]
    {
      InputsPrefix(a, net, toks, tok, li);
      VecsPrefix(a, net, li, Inputs(a, net, toks + [tok], li), |toks|, |toks|, kind);
    }
  }

  lemma {:induction false} RowsEnd(a: Arch, net: Net, toks: seq<nat>, kind: Kind)
    requires NetOk(a, net) && toks != []
    ensures RowsUpTo(a, net, toks, a.nLayers, kind) == RowsOf(a, net, toks, kind)
  {}

  lemma {:induction false} RowsPush(a: Arch, net: Net, toks: seq<nat>, li: nat, kind: Kind)
    requires NetOk(a, net) && toks != [] && li < a.nLayers
    ensures var p := net.project(li, |toks| - 1, Inputs(a, net, toks, li)[|toks| - 1]);
      Push(RowsUpTo(a, net, toks, li, kind), li, Of(p, kind)) == RowsUpTo(a, net, toks, li + 1, kind)
  {
    var xs, n := Inputs(a, net, toks, li), |toks| - 1;
    assert Vecs(a, net, li, xs, n, kind) + [Of(net.project(li, n, xs[n]), kind)] == Vecs(a, net, li, xs, n + 1, kind);
  }

  // ----- The code -----------------------------------------------------------------------------------

  class Run {
    const a: Arch
    const kCache: array<real>
    const vCache: array<real>
    var logits: Vec

    ghost predicate Valid()
      reads this, kCache, vCache
    {
      ArchOk(a) && kCache != vCache && CacheOk(a, kCache[..]) && CacheOk(a, vCache[..])
    }

    constructor (a: Arch)
      requires ArchOk(a)
      ensures Valid() && this.a == a && fresh(kCache) && fresh(vCache)
    {
      this.a := a;
      kCache := new real[Times(Cells(a), a.headDim)](i => 0.0);
      vCache := new real[Times(Cells(a), a.headDim)](i => 0.0);
      logits := [];
    }

    /** The caches hold exactly these rows, and zeros everywhere else. */
    ghost predicate Cache(keys: Rows, values: Rows)
      reads this, kCache, vCache
    {
      ArchOk(a) && kCache != vCache && Holds(a, kCache[..], keys) && Holds(a, vCache[..], values)
    }

    /** The caches hold exactly the text `toks`. */
    ghost predicate Caches(net: Net, toks: seq<nat>)
      requires NetOk(a, net)
      reads this, kCache, vCache
    {
      Cache(RowsOf(a, net, toks, Key), RowsOf(a, net, toks, Value))
    }

    /** `forward`: one token through all layers, each layer attending over its cached keys and
        values and feeding the next.  The logits are those of recomputing the whole text. */
    method Forward(net: Net, tok: nat, kvPos: nat, ghost toks: seq<nat>)
      requires NetOk(a, net) && Caches(net, toks) && kvPos == |toks| < MAX_CTX
      modifies kCache, vCache, `logits
      ensures Caches(net, toks + [tok])
      ensures forall left :: logits == LogitsAfter(a, net, left, toks + [tok])
    {
      ghost var text := toks + [tok];
      RowsStart(a, net, toks, tok, Key);
      RowsStart(a, net, toks, tok, Value);
      var x := net.embed(tok);
      for li := 0 to a.nLayers
        invariant Cache(RowsUpTo(a, net, text, li, Key), RowsUpTo(a, net, text, li, Value))
        invariant x == Inputs(a, net, text, li)[kvPos]
      {
        x := Layer(net, li, kvPos, x, text);
      }
      RowsEnd(a, net, text, Key);
      RowsEnd(a, net, text, Value);
      logits := net.head(x);
    }

    /** One layer: store the position's key and value, attend, combine. */
    method Layer(net: Net, li: nat, kvPos: nat, x: Vec, ghost text: seq<nat>) returns (out: Vec)
      requires NetOk(a, net) && li < a.nLayers && |text| == kvPos + 1 <= MAX_CTX
      requires Cache(RowsUpTo(a, net, text, li, Key), RowsUpTo(a, net, text, li, Value))
      requires x == Inputs(a, net, text, li)[kvPos]
      modifies kCache, vCache
      ensures Cache(RowsUpTo(a, net, text, li + 1, Key), RowsUpTo(a, net, text, li + 1, Value))
      ensures out == Inputs(a, net, text, li + 1)[kvPos]
    {
      var p := net.project(li, kvPos, x);
      assert ProjOk(a, p);
      RowsPush(a, net, text, li, Key);
      RowsPush(a, net, text, li, Value);
      StoreBoth(p, li, kvPos, RowsUpTo(a, net, text, li, Key), RowsUpTo(a, net, text, li, Value));
      var heads := Attend(net.env, p.q, li, kvPos,
                          RowsUpTo(a, net, text, li + 1, Key), RowsUpTo(a, net, text, li + 1, Value));
      out := net.finish(li, x, heads);
    }

    method StoreBoth(p: Proj, li: nat, pos: nat, ghost keys: Rows, ghost values: Rows)
      requires Cache(keys, values) && li < a.nLayers && |keys[li]| == |values[li]| == pos < MAX_CTX && ProjOk(a, p)
      modifies kCache, vCache
      ensures Cache(Push(keys, li, p.k), Push(values, li, p.v))
    {
      Store(a, kCache, li, pos, p.k, keys);
      Store(a, vCache, li, pos, p.v, values);
    }

    /** The attention heads of one layer. */
    method Attend(env: Env, q: Vec, li: nat, kvPos: nat, ghost keys: Rows, ghost values: Rows) returns (heads: seq<Vec>)
      requires Cache(keys, values) && SoftOk(env) && li < a.nLayers && |q| == Times(a.nHeads, a.headDim)
      requires |keys[li]| == |values[li]| == kvPos + 1 <= MAX_CTX
      ensures heads == Attention(a, env, keys[li], values[li], q)
    {
      heads := [];
      for h := 0 to a.nHeads
        invariant |heads| == h
        invariant forall g :: 0 <= g < h ==> heads[g] == HeadAttention(a, env, keys[li], values[li], q, g)
      {
        var out := AttendHead(env, q, li, h, kvPos, keys, values);
        heads := heads + [out];
      }
    }

    method AttendHead(env: Env, q: Vec, li: nat, h: nat, kvPos: nat, ghost keys: Rows, ghost values: Rows) returns (out: Vec)
      requires Cache(keys, values) && SoftOk(env) && li < a.nLayers && h < a.nHeads && |q| == Times(a.nHeads, a.headDim)
      requires |keys[li]| == |values[li]| == kvPos + 1 <= MAX_CTX
      ensures out == HeadAttention(a, env, keys[li], values[li], q, h)
    {
      SlotFits(h, a.nHeads, a.headDim);
      var kvH := KvHead(a, h);
      HeldColumn(a, kCache[..], keys, li, kvH);
      HeldColumn(a, vCache[..], values, li, kvH);
      var scores := Scores(a, kCache, li, kvH, Part(q, a.headDim, h), env.scale, kvPos, keys[li]);
      out := Mixed(a, vCache, li, kvH, env.soft(scores), kvPos, values[li]);
    }

    /** Clear both caches. */
    method Reset(ghost net: Net)
      requires Valid() && NetOk(a, net)
      modifies kCache, vCache
      ensures Caches(net, [])
    {
      Clear(kCache);
      Clear(vCache);
      ClearHolds(a, kCache[..], RowsOf(a, net, [], Key));
      ClearHolds(a, vCache[..], RowsOf(a, net, [], Value));
    }

    /** Feed a text from cleared caches. */
    method Prefill(net: Net, tail: seq<nat>)
      requires NetOk(a, net) && Valid() && |tail| <= MAX_CTX
      modifies kCache, vCache, `logits
      ensures Caches(net, tail) && logits == LogitsAfter(a, net, old(logits), tail)
    {
      Reset(net);
      ghost var left := logits;
      var kvPos := 0;
      for i := 0 to |tail|
        invariant kvPos == i
        invariant Caches(net, tail[..i]) && logits == LogitsAfter(a, net, left, tail[..i])
      {
        if kvPos >= MAX_CTX { break; }
        assert tail[..i] + [tail[i]] == tail[..i + 1];
        Forward(net, tail[i], kvPos, tail[..i]);
        kvPos := kvPos + 1;
      }
      assert tail[..|tail|] == tail;
    }

    /** `generate`: the tokens are those of generation without a cache, and afterwards the caches
        hold exactly this run. */
    method Generate(net: Net, prompt: seq<nat>) returns (gen: seq<nat>)
      requires NetOk(a, net) && Valid()
      modifies kCache, vCache, `logits
      ensures gen == Continue(a, net, old(logits), PromptTail(prompt), [])
      ensures |PromptTail(prompt)| + |gen| <= MAX_CTX && Caches(net, PromptTail(prompt) + gen)
    {
      var tail := PromptTail(prompt);
      ghost var left := logits;
      Prefill(net, tail);
      gen := [];
      assert tail + gen == tail;
      var kvPos := |tail|;
      for n := 0 to MAX_GEN
        invariant |gen| == n && kvPos == |tail| + n
        invariant Caches(net, tail + gen) && logits == LogitsAfter(a, net, left, tail + gen)
        invariant Continue(a, net, left, tail, gen) == Continue(a, net, left, tail, [])
      {
        if kvPos >= MAX_CTX { break; }
        var next := net.pick(logits, gen);
        if next == EOS_TOKEN { break; }
        Forward(net, next, kvPos, tail + gen);
        assert tail + gen + [next] == tail + (gen + [next]);
        gen := gen + [next];
        kvPos := kvPos + 1;
      }
    }
  }

  /** The last MAX_CTX - MAX_GEN tokens of the prompt. */
  function PromptTail(prompt: seq<nat>): (r: seq<nat>)
    ensures |r| <= MAX_CTX - MAX_GEN && |r| <= |prompt| && r == prompt[|prompt| - |r|..]
    ensures |r| < |prompt| ==> |r| == MAX_CTX - MAX_GEN
  {
    if |prompt| > MAX_CTX - MAX_GEN then prompt[|prompt| - (MAX_CTX - MAX_GEN)..] else prompt
  }

  /** Generation stops at an end token or after MAX_GEN tokens, and never for lack of room; each
      token is the one sampled at its place. */
  lemma {:induction false} ContinueStops(a: Arch, net: Net, left: Vec, tail: seq<nat>, gen: seq<nat>, i: nat)
    requires NetOk(a, net) && |gen| <= MAX_GEN
    ensures var all := Continue(a, net, left, tail, gen);
      && gen <= all && |all| <= MAX_GEN
      && (|all| < MAX_GEN ==> net.pick(LogitsAfter(a, net, left, tail + all), all) == EOS_TOKEN)
      && (|gen| <= i < |all| ==>
            all[i] == net.pick(LogitsAfter(a, net, left, tail + all[..i]), all[..i]) && all[i] != EOS_TOKEN)
    decreases MAX_GEN - |gen|
  {
    if |gen| < MAX_GEN {
      var next := net.pick(LogitsAfter(a, net, left, tail + gen), gen);
      if next != EOS_TOKEN {
        ContinueStops(a, net, left, tail, gen + [next], i);
        assert Continue(a, net, left, tail, gen)[..|gen|] == gen;
      }
    }
  }
}

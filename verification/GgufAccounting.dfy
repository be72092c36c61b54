/** Byte accounting of a GGUF model's tensors, _account_tensors and the per-layer publication of
    tools/gguf/parse_gguf.py. */
module GgufAccounting {
  import opened Options
  import opened Text

  /** A tensor header: its name, its offset in the shard's data section, and its size by type arithmetic. */
  datatype Tensor = Tensor(name: string, offset: nat, math: nat)

  // Names.

  /** part, followed by a dot or by nothing. */
  predicate ContainsWord(s: string, part: string) {
    (part <= s && (|s| == |part| || s[|part|] == '.')) || (s != "" && ContainsWord(s[1..], part))
  }

  function DigitCount(s: string): (n: nat)
    ensures n <= |s|
  {
    if s != "" && '0' <= s[0] <= '9' then 1 + DigitCount(s[1..]) else 0
  }

  /** The layer of blk.<digits>. at the start of a name. */
  function LayerOf(name: string): Option<nat> {
    if !("blk." <= name) then None
    else
      var rest := name[4..];
      var n := DigitCount(rest);
      if n > 0 && n < |rest| && rest[n] == '.' then Some(Number(rest[..n])) else None
  }

  /** The sparse row-lookup tier the architecture proves: its layers, and its tensor's name in a layer. */
  datatype Lookup = Lookup(layers: set<nat>, tensor: nat -> string)

  predicate IsSparse(name: string, lookup: Lookup) {
    LayerOf(name).Some? && LayerOf(name).value in lookup.layers && name == lookup.tensor(LayerOf(name).value)
  }

  // Totals.

  type PerLayer = map<nat, nat>

  /** Totals kept for single tensors. */
  datatype Singles = Singles(tokenEmbd: nat, perLayerEmbd: nat, output: nat)

  /** The per-layer tables. */
  datatype Layers = Layers(expert: PerLayer, shared: PerLayer, routed: PerLayer, aux: PerLayer, nonExpert: PerLayer,
                           sparse: PerLayer)

  /** The byte fields of the result. */
  datatype Totals = Totals(expert: nat, nonExpert: nat, shared: nat, aux: nat, sparse: nat, singles: Singles, layers: Layers)

  const NOTHING := Totals(0, 0, 0, 0, 0, Singles(0, 0, 0), Layers(map[], map[], map[], map[], map[], map[]))

  function At(m: PerLayer, layer: nat): nat {
    if layer in m then m[layer] else 0
  }

  function AddAt(m: PerLayer, layer: Option<nat>, n: nat): PerLayer {
    if layer.None? then m else m[layer.value := At(m, layer.value) + n]
  }

  /** The tensors with a total of their own. */
  function Known(s: Singles, name: string, n: nat): Singles {
    if name == "token_embd.weight" then s.(tokenEmbd := s.tokenEmbd + n)
    else if name == "per_layer_token_embd.weight" then
      s.(tokenEmbd := s.tokenEmbd + n, perLayerEmbd := s.perLayerEmbd + n)
    else if name == "output.weight" then s.(output := s.output + n)
    else s
  }

  datatype Kind = SparseTable | SharedExpert | RoutedExpert | ExpertAux | Backbone

  function KindOf(name: string, lookup: Lookup): Kind {
    if IsSparse(name, lookup) then SparseTable
    else if Contains(name, "_shexp.") || Contains(name, "_chexp.") then SharedExpert
    else if Contains(name, "_exps.") || Contains(name, "_chexps.") || Contains(name, ".experts.") then RoutedExpert
    else if ContainsWord(name, ".ffn_gate_inp") || ContainsWord(name, ".ffn_gate_tid2eid") ||
            ContainsWord(name, ".ffn_exp_probs_b") then ExpertAux
    else Backbone
  }

  function Place(l: Layers, kind: Kind, at: Option<nat>, n: nat): Layers {
    match kind
    case SparseTable => l.(sparse := AddAt(l.sparse, at, n))
    case SharedExpert => l.(expert := AddAt(l.expert, at, n), shared := AddAt(l.shared, at, n))
    case RoutedExpert => l.(expert := AddAt(l.expert, at, n), routed := AddAt(l.routed, at, n))
    case ExpertAux => l.(aux := AddAt(l.aux, at, n))
    case Backbone => l.(nonExpert := AddAt(l.nonExpert, at, n))
  }

  /** What one tensor of n bytes adds. */
  function Charge(t: Totals, name: string, n: nat, lookup: Lookup): Totals {
    var kind := KindOf(name, lookup);
    var layers := Place(t.layers, kind, LayerOf(name), n);
    match kind
    case SparseTable => t.(nonExpert := t.nonExpert + n, sparse := t.sparse + n, layers := layers)
    case SharedExpert => t.(expert := t.expert + n, shared := t.shared + n, layers := layers)
    case RoutedExpert => t.(expert := t.expert + n, layers := layers)
    case ExpertAux =>
      t.(nonExpert := t.nonExpert + n, aux := t.aux + n, layers := layers, singles := Known(t.singles, name, n))
    case Backbone => t.(nonExpert := t.nonExpert + n, layers := layers, singles := Known(t.singles, name, n))
  }

  /** Tensors charged in file order, each at the size its name has. */
  function ChargeAll(t: Totals, ts: seq<Tensor>, size: Tensor -> nat, lookup: Lookup): Totals {
    if ts == [] then t
    else Charge(ChargeAll(t, ts[..|ts| - 1], size, lookup), ts[|ts| - 1].name, size(ts[|ts| - 1]), lookup)
  }

  function Bytes(ts: seq<Tensor>, size: Tensor -> nat): nat {
    if ts == [] then 0 else Bytes(ts[..|ts| - 1], size) + size(ts[|ts| - 1])
  }

  function LayerBytes(ts: seq<Tensor>, size: Tensor -> nat, layer: nat): nat {
    if ts == [] then 0
    else LayerBytes(ts[..|ts| - 1], size, layer) + (if LayerOf(ts[|ts| - 1].name) == Some(layer) then size(ts[|ts| - 1]) else 0)
  }

  /** The four per-layer tables a tensor can go to. */
  function InLayer(l: Layers, layer: nat): nat {
    At(l.expert, layer) + At(l.aux, layer) + At(l.nonExpert, layer) + At(l.sparse, layer)
  }

  /** A layer's expert bytes are its routed and its shared expert bytes. */
  ghost predicate ExpertsSplit(l: Layers) {
    forall layer: nat :: At(l.expert, layer) == At(l.routed, layer) + At(l.shared, layer)
  }

  lemma AddAtIs(m: PerLayer, at: Option<nat>, n: nat, k: nat)
    ensures At(AddAt(m, at, n), k) == At(m, k) + (if at == Some(k) then n else 0)
  {
  }

  /** Seen from one layer. */
  lemma PlaceAt(l: Layers, kind: Kind, at: Option<nat>, n: nat, k: nat)
    requires At(l.expert, k) == At(l.routed, k) + At(l.shared, k)
    ensures var m := Place(l, kind, at, n);
            && At(m.expert, k) == At(m.routed, k) + At(m.shared, k)
            && InLayer(m, k) == InLayer(l, k) + (if at == Some(k) then n else 0)
  {
    hide AddAt, At;
    AddAtIs(l.expert, at, n, k);
    AddAtIs(l.shared, at, n, k);
    AddAtIs(l.routed, at, n, k);
    AddAtIs(l.aux, at, n, k);
    AddAtIs(l.nonExpert, at, n, k);
    AddAtIs(l.sparse, at, n, k);
  }

  lemma ChargeOnce(t: Totals, name: string, n: nat, lookup: Lookup)
    requires ExpertsSplit(t.layers)
    ensures var u := Charge(t, name, n, lookup);
            && u.expert + u.nonExpert == t.expert + t.nonExpert + n && ExpertsSplit(u.layers)
            && forall layer: nat ::
                 InLayer(u.layers, layer) == InLayer(t.layers, layer) + (if LayerOf(name) == Some(layer) then n else 0)
  {
    hide KindOf, Place, LayerOf, At, InLayer, Known;
    var l, kind, at := t.layers, KindOf(name, lookup), LayerOf(name);
    var m := Place(l, kind, at, n);
    forall layer: nat
      ensures At(m.expert, layer) == At(m.routed, layer) + At(m.shared, layer)
      ensures InLayer(m, layer) == InLayer(l, layer) + (if at == Some(layer) then n else 0)
    {
      PlaceAt(l, kind, at, n, layer);
    }
  }

  /** Whatever the tensors: expert and non-expert bytes grow by exactly their sizes, every layer's four
      tables together by exactly the sizes of its own tensors, and expert bytes stay split. */
  lemma {:induction false} EachChargedOnce(t: Totals, ts: seq<Tensor>, size: Tensor -> nat, lookup: Lookup)
    requires ExpertsSplit(t.layers)
    ensures var u := ChargeAll(t, ts, size, lookup);
            && u.expert + u.nonExpert == t.expert + t.nonExpert + Bytes(ts, size) && ExpertsSplit(u.layers)
            && forall layer: nat :: InLayer(u.layers, layer) == InLayer(t.layers, layer) + LayerBytes(ts, size, layer)
  {
    hide Charge, ExpertsSplit, InLayer, LayerOf;
    if ts != [] {
      var n := |ts| - 1;
      EachChargedOnce(t, ts[..n], size, lookup);
      ChargeOnce(ChargeAll(t, ts[..n], size, lookup), ts[n].name, size(ts[n]), lookup);
    }
  }

  // Every total apart, by the names alone.

  predicate NamesShared(name: string) {
    Contains(name, "_shexp.") || Contains(name, "_chexp.")
  }

  predicate NamesExpert(name: string) {
    NamesShared(name) || Contains(name, "_exps.") || Contains(name, "_chexps.") || Contains(name, ".experts.")
  }

  /** A name of routing metadata: a gate part, followed by a dot or by nothing. */
  predicate NamesGate(name: string) {
    HasPart(name, ".ffn_gate_inp") || HasPart(name, ".ffn_gate_tid2eid") || HasPart(name, ".ffn_exp_probs_b")
  }

  predicate HasPart(name: string, part: string) {
    exists i :: 0 <= i <= |name| && (name[i..] == part || part + "." <= name[i..])
  }

  /** blk, the digits of the layer and a dot begin the name. */
  ghost predicate InLayerNamed(name: string, layer: nat) {
    exists digits: string :: AllDigits(digits) && "blk." + digits + "." <= name && Number(digits) == layer
  }

  predicate AllDigits(digits: string) {
    digits != "" && forall i :: 0 <= i < |digits| ==> '0' <= digits[i] <= '9'
  }

  /** The name the lookup table's tensor has in a layer it covers. */
  ghost predicate NamesTable(name: string, lookup: Lookup) {
    exists layer <- lookup.layers :: InLayerNamed(name, layer) && name == lookup.tensor(layer)
  }

  /** What a total or a table counts. */
  datatype Column = Experts | SharedExperts | RoutedExperts | Gates | Table | Remainder | NotExperts
                  | Embeddings | PerLayerEmbeddings | Output

  ghost predicate Counts(c: Column, name: string, lookup: Lookup) {
    match c
    case Experts => NamesExpert(name) && !NamesTable(name, lookup)
    case SharedExperts => NamesShared(name) && !NamesTable(name, lookup)
    case RoutedExperts => NamesExpert(name) && !NamesShared(name) && !NamesTable(name, lookup)
    case Gates => NamesGate(name) && !NamesExpert(name) && !NamesTable(name, lookup)
    case Table => NamesTable(name, lookup)
    case Remainder => !NamesGate(name) && !NamesExpert(name) && !NamesTable(name, lookup)
    case NotExperts => !NamesExpert(name) || NamesTable(name, lookup)
    case Embeddings => name == "token_embd.weight" || name == "per_layer_token_embd.weight"
    case PerLayerEmbeddings => name == "per_layer_token_embd.weight"
    case Output => name == "output.weight"
  }

  /** The sizes of the tensors a column counts, of one layer or of all. */
  ghost function SumOf(c: Column, at: Option<nat>, ts: seq<Tensor>, size: Tensor -> nat, lookup: Lookup): nat {
    if ts == [] then 0
    else
      var t := ts[|ts| - 1];
      SumOf(c, at, ts[..|ts| - 1], size, lookup) +
      if Counts(c, t.name, lookup) && (at.Some? ==> InLayerNamed(t.name, at.value)) then size(t) else 0
  }

  /** Where the count of a column stands, if it is kept: in total, or of one layer. */
  ghost function Stands(t: Totals, c: Column, at: Option<nat>): Option<nat> {
    var l := t.layers;
    match c
    case Experts => Some(if at.None? then t.expert else At(l.expert, at.value))
    case SharedExperts => Some(if at.None? then t.shared else At(l.shared, at.value))
    case RoutedExperts => if at.None? then None else Some(At(l.routed, at.value))
    case Gates => Some(if at.None? then t.aux else At(l.aux, at.value))
    case Table => Some(if at.None? then t.sparse else At(l.sparse, at.value))
    case Remainder => if at.None? then None else Some(At(l.nonExpert, at.value))
    case NotExperts => if at.None? then Some(t.nonExpert) else None
    case Embeddings => if at.None? then Some(t.singles.tokenEmbd) else None
    case PerLayerEmbeddings => if at.None? then Some(t.singles.perLayerEmbd) else None
    case Output => if at.None? then Some(t.singles.output) else None
  }

  /** Every column, in total and at every layer, has grown by the sizes of the tensors it counts. */
  ghost predicate Grown(t: Totals, u: Totals, ts: seq<Tensor>, size: Tensor -> nat, lookup: Lookup) {
    forall c: Column, at: Option<nat> ::
      Stands(u, c, at) == if Stands(t, c, at).None? then None else Some(Stands(t, c, at).value + SumOf(c, at, ts, size, lookup))
  }

  ghost function One(c: Column, at: Option<nat>, name: string, n: nat, lookup: Lookup): nat {
    if Counts(c, name, lookup) && (at.Some? ==> InLayerNamed(name, at.value)) then n else 0
  }

  /** The recursive search finds a part exactly where there is one. */
  lemma {:induction false} WordIs(name: string, part: string)
    requires part != ""
    ensures ContainsWord(name, part) <==> HasPart(name, part)
  {
    PartFirst(name, part);
    if name != "" {
      WordIs(name[1..], part);
      forall i | 1 <= i <= |name| ensures name[1..][i - 1..] == name[i..] {
      }
    }
    if HasPart(name, part) {
      var i :| 0 <= i <= |name| && (name[i..] == part || part + "." <= name[i..]);
      if i > 0 {
        assert name[1..][i - 1..] == name[i..];
      }
    }
  }

  lemma PartFirst(s: string, part: string)
    ensures (part <= s && (|s| == |part| || s[|part|] == '.')) <==> s == part || part + "." <= s
  {
    if part <= s && |s| > |part| && s[|part|] == '.' {
      assert s[..|part| + 1] == part + ".";
    }
  }

  lemma {:induction false} DigitCountIs(s: string, n: nat)
    requires n < |s| && (forall i :: 0 <= i < n ==> '0' <= s[i] <= '9') && s[n] == '.'
    ensures DigitCount(s) == n
  {
    if n > 0 {
      DigitCountIs(s[1..], n - 1);
    }
  }

  lemma {:induction false} DigitsCounted(s: string)
    ensures forall i :: 0 <= i < DigitCount(s) ==> '0' <= s[i] <= '9'
  {
    if s != "" && '0' <= s[0] <= '9' {
      DigitsCounted(s[1..]);
    }
  }

  lemma LayerFound(name: string, digits: string)
    requires AllDigits(digits) && "blk." + digits + "." <= name
    ensures LayerOf(name) == Some(Number(digits))
  {
    hide Number, DigitCount;
    var head := "blk." + digits + ".";
    assert head[..4] == "blk." && name[..4] == "blk.";
    assert forall i :: 0 <= i < |digits| ==> head[4 + i] == digits[i];
    assert name[..|head|] == head;
    assert name[4..][..|digits|] == digits;
    DigitCountIs(name[4..], |digits|);
  }

  /** The prefix match finds the layer exactly if the name says one. */
  lemma LayerIs(name: string, layer: nat)
    ensures LayerOf(name) == Some(layer) <==> InLayerNamed(name, layer)
  {
    hide Number, DigitCount;
    if InLayerNamed(name, layer) {
      var digits :| AllDigits(digits) && "blk." + digits + "." <= name && Number(digits) == layer;
      LayerFound(name, digits);
    }
    if LayerOf(name) == Some(layer) {
      var rest := name[4..];
      var n := DigitCount(rest);
      DigitsCounted(rest);
      assert name[..4 + n + 1] == "blk." + rest[..n] + ".";
      assert AllDigits(rest[..n]);
    }
  }

  /** A tensor of layer k is found to be of layer k, whatever its own name. */
  lemma LayerWritten(k: nat, rest: string)
    ensures LayerOf("blk." + Decimal(k) + "." + rest) == Some(k)
  {
    hide LayerOf, Decimal;
    NumberRead(k);
    var name := "blk." + Decimal(k) + "." + rest;
    assert name[..|"blk." + Decimal(k) + "."|] == "blk." + Decimal(k) + ".";
    assert AllDigits(Decimal(k)) && InLayerNamed(name, k);
    LayerIs(name, k);
  }

  lemma TableIs(name: string, lookup: Lookup)
    ensures IsSparse(name, lookup) <==> NamesTable(name, lookup)
  {
    hide LayerOf, InLayerNamed;
    if IsSparse(name, lookup) {
      LayerIs(name, LayerOf(name).value);
    }
    if NamesTable(name, lookup) {
      var layer :| layer in lookup.layers && InLayerNamed(name, layer) && name == lookup.tensor(layer);
      LayerIs(name, layer);
    }
  }

  /** The kind of a tensor, told by its name. */
  lemma KindIs(name: string, lookup: Lookup)
    ensures match KindOf(name, lookup)
            case SparseTable => NamesTable(name, lookup)
            case SharedExpert => !NamesTable(name, lookup) && NamesShared(name) && NamesExpert(name)
            case RoutedExpert => !NamesTable(name, lookup) && !NamesShared(name) && NamesExpert(name)
            case ExpertAux => !NamesTable(name, lookup) && !NamesExpert(name) && NamesGate(name)
            case Backbone => !NamesTable(name, lookup) && !NamesExpert(name) && !NamesGate(name)
    ensures !NamesExpert(name) ==> !NamesShared(name)
  {
    hide IsSparse, NamesTable, ContainsWord, HasPart;
    TableIs(name, lookup);
    WordIs(name, ".ffn_gate_inp");
    WordIs(name, ".ffn_gate_tid2eid");
    WordIs(name, ".ffn_exp_probs_b");
  }

  /** The embeddings and the output head have totals of their own because no expert and no table is called
      like them. */
  lemma KnownNames(name: string, lookup: Lookup)
    requires name in {"token_embd.weight", "per_layer_token_embd.weight", "output.weight"}
    ensures !NamesTable(name, lookup) && !NamesExpert(name)
  {
    forall digits: string ensures !("blk." + digits + "." <= name) {
      assert ("blk." + digits + ".")[0] == 'b' && name[0] in "tpo";
    }
    NoPart(name);
  }

  lemma NoPart(name: string)
    requires name in {"token_embd.weight", "per_layer_token_embd.weight", "output.weight"}
    ensures !NamesExpert(name)
  {
    forall i | 0 <= i < |name| && name[i] == '_' ensures i + 1 < |name| && name[i + 1] !in "sc" && (name[i + 1] == 'e' ==> name[i + 2] == 'm') {
    }
    forall i | 0 <= i < |name| && name[i] == '.' ensures i + 1 < |name| && name[i + 1] == 'w' {
    }
    NoneContained(name);
  }

  lemma NoneContained(name: string)
    requires forall i :: 0 <= i < |name| && name[i] == '_' ==>
               i + 2 < |name| && name[i + 1] !in "sc" && (name[i + 1] == 'e' ==> name[i + 2] == 'm')
    requires forall i :: 0 <= i < |name| && name[i] == '.' ==> i + 1 < |name| && name[i + 1] == 'w'
    ensures !NamesExpert(name)
  {
    forall i | 0 <= i <= |name|
      ensures !("_shexp." <= name[i..]) && !("_chexp." <= name[i..]) && !("_exps." <= name[i..])
      ensures !("_chexps." <= name[i..]) && !(".experts." <= name[i..])
    {
      NotHere(name, i, "_shexp.");
      NotHere(name, i, "_chexp.");
      NotHere(name, i, "_exps.");
      NotHere(name, i, "_chexps.");
      NotHere(name, i, ".experts.");
    }
  }

  lemma NotHere(name: string, i: nat, part: string)
    requires i <= |name| && |part| >= 3
    requires i + 2 < |name| ==> name[i] != part[0] || name[i + 1] != part[1] || name[i + 2] != part[2]
    ensures !(part <= name[i..])
  {
    assert i + 2 < |name| ==> name[i..][0] == name[i] && name[i..][1] == name[i + 1] && name[i..][2] == name[i + 2];
  }

  lemma AddedAt(m: PerLayer, name: string, n: nat, k: nat, counted: bool)
    ensures At(if counted then AddAt(m, LayerOf(name), n) else m, k)
         == At(m, k) + if counted && InLayerNamed(name, k) then n else 0
  {
    hide LayerOf, InLayerNamed;
    LayerIs(name, k);
  }

  /** One tensor, in one column. */
  ghost predicate OneMore(t: Totals, name: string, n: nat, lookup: Lookup, c: Column, at: Option<nat>) {
    Stands(Charge(t, name, n, lookup), c, at) ==
    if Stands(t, c, at).None? then None else Some(Stands(t, c, at).value + One(c, at, name, n, lookup))
  }

  lemma ChargeTotal(t: Totals, name: string, n: nat, lookup: Lookup, c: Column)
    ensures OneMore(t, name, n, lookup, c, None)
  {
    hide KindOf, LayerOf, NamesTable, NamesExpert, NamesShared, NamesGate, InLayerNamed, AddAt, At, Place;
    KindIs(name, lookup);
    if name in {"token_embd.weight", "per_layer_token_embd.weight", "output.weight"} {
      KnownNames(name, lookup);
    }
  }

  lemma ChargeLayer(t: Totals, name: string, n: nat, lookup: Lookup, c: Column, k: nat)
    ensures OneMore(t, name, n, lookup, c, Some(k))
  {
    hide KindOf, LayerOf, NamesTable, NamesExpert, NamesShared, NamesGate, InLayerNamed, AddAt, At, Known;
    KindIs(name, lookup);
    var l, kind := t.layers, KindOf(name, lookup);
    AddedAt(l.expert, name, n, k, kind in {SharedExpert, RoutedExpert});
    AddedAt(l.shared, name, n, k, kind == SharedExpert);
    AddedAt(l.routed, name, n, k, kind == RoutedExpert);
    AddedAt(l.aux, name, n, k, kind == ExpertAux);
    AddedAt(l.nonExpert, name, n, k, kind == Backbone);
    AddedAt(l.sparse, name, n, k, kind == SparseTable);
  }

  /** Whatever the tensors: every total and every per-layer table grows by exactly the sizes of the tensors
      whose names put them there. */
  lemma {:induction false} TotalsApart(t: Totals, ts: seq<Tensor>, size: Tensor -> nat, lookup: Lookup)
    ensures Grown(t, ChargeAll(t, ts, size, lookup), ts, size, lookup)
  {
    hide Charge, Counts, InLayerNamed, At, Stands;
    if ts != [] {
      var n := |ts| - 1;
      var u := ChargeAll(t, ts[..n], size, lookup);
      var v := Charge(u, ts[n].name, size(ts[n]), lookup);
      TotalsApart(t, ts[..n], size, lookup);
      forall c: Column, at: Option<nat>
        ensures Stands(v, c, at) == if Stands(u, c, at).None? then None
                                    else Some(Stands(u, c, at).value + One(c, at, ts[n].name, size(ts[n]), lookup))
      {
        if at.Some? {
          ChargeLayer(u, ts[n].name, size(ts[n]), lookup, c, at.value);
        } else {
          ChargeTotal(u, ts[n].name, size(ts[n]), lookup, c);
        }
      }
    }
  }

  // Spans.

  predicate UniqueNames(ts: seq<Tensor>) {
    forall i, j :: 0 <= i < j < |ts| ==> ts[i].name != ts[j].name
  }

  /** sorted(tensors, key=offset), which is stable. */
  function Sorted(ts: seq<Tensor>): (s: seq<Tensor>)
    ensures |s| == |ts|
  {
    if ts == [] then [] else Insert(Sorted(ts[..|ts| - 1]), ts[|ts| - 1])
  }

  function Insert(s: seq<Tensor>, t: Tensor): (r: seq<Tensor>)
    ensures |r| == |s| + 1
  {
    if s == [] || s[|s| - 1].offset <= t.offset then s + [t]
    else Insert(s[..|s| - 1], t) + [s[|s| - 1]]
  }

  function DataStart(headerEnd: nat, align: int): nat {
    var a := if align <= 0 then 32 else align;
    (headerEnd + a - 1) / a * a
  }

  /** The data section begins at the first multiple of the alignment, 32 by default, behind the headers. */
  lemma DataStartIs(headerEnd: nat, align: int)
    ensures var a := if align > 0 then align else 32;
            headerEnd <= DataStart(headerEnd, align) < headerEnd + a && exists k: int :: DataStart(headerEnd, align) == Times(k, a)
  {
    var a := if align > 0 then align else 32;
    var k := (headerEnd + a - 1) / a;
    Euclid(headerEnd + a - 1, a);
    assert DataStart(headerEnd, align) == Times(k, a);
  }

  function Times(k: int, a: int): int { k * a }

  lemma Euclid(n: int, a: int)
    requires a > 0
    ensures n - a < n / a * a <= n
  {
    assert n == n / a * a + n % a;
  }

  /** The offsets of tensors by offset begin at 0, rise strictly, and stay inside the data section. */
  predicate Usable(s: seq<Tensor>, dataSize: int) {
    && s != [] && dataSize > 0 && s[0].offset == 0
    && forall i :: 0 <= i < |s| ==> s[i].offset < End(s, i, dataSize)
  }

  function End(s: seq<Tensor>, i: nat, dataSize: int): int
    requires i < |s|
  {
    if i + 1 < |s| then s[i + 1].offset else dataSize
  }

  /** The span loop of _account_tensors, spans keyed by name. */
  method Spans(s: seq<Tensor>, dataSize: int) returns (ok: bool, spans: map<string, nat>)
    requires s != []
    ensures ok == Usable(s, dataSize)
    ensures ok ==> spans == SpanMap(s, |s|, dataSize)
  {
    ok, spans := dataSize > 0 && s[0].offset == 0, map[];
    if ok {
      for i := 0 to |s|
        invariant forall k :: 0 <= k < i ==> s[k].offset < End(s, k, dataSize)
        invariant spans == SpanMap(s, i, dataSize)
      {
        var end := End(s, i, dataSize);
        if end <= s[i].offset {
          return false, map[];
        }
        spans := spans[s[i].name := end - s[i].offset];
      }
    }
  }

  function SpanMap(s: seq<Tensor>, n: nat, dataSize: int): map<string, nat>
    requires n <= |s| && forall k :: 0 <= k < n ==> s[k].offset < End(s, k, dataSize)
  {
    if n == 0 then map[] else SpanMap(s, n - 1, dataSize)[s[n - 1].name := End(s, n - 1, dataSize) - s[n - 1].offset]
  }

  function SpanOf(spans: map<string, nat>): Tensor -> nat {
    (t: Tensor) => if t.name in spans then spans[t.name] else 0
  }

  function MathOf(t: Tensor): nat {
    t.math
  }

  function Span(s: seq<Tensor>, i: nat, dataSize: int): int
    requires i < |s|
  {
    End(s, i, dataSize) - s[i].offset
  }

  /** The last of the first n tensors that bears a name: the one whose span the map keeps. */
  function LastNamed(s: seq<Tensor>, n: nat, name: string): (i: nat)
    requires n <= |s|
    ensures i <= n && (i < n ==> s[i].name == name)
    ensures forall k :: (if i < n then i + 1 else 0) <= k < n ==> s[k].name != name
  {
    if n == 0 then 0
    else if s[n - 1].name == name then n - 1
    else
      var i := LastNamed(s, n - 1, name);
      if i == n - 1 then n else i
  }

  lemma {:induction false} SpanMapHolds(s: seq<Tensor>, n: nat, dataSize: int, name: string)
    requires n <= |s| && forall k :: 0 <= k < n ==> s[k].offset < End(s, k, dataSize)
    ensures var i := LastNamed(s, n, name);
            && (name in SpanMap(s, n, dataSize) <==> i < n)
            && (i < n ==> SpanMap(s, n, dataSize)[name] == Span(s, i, dataSize))
  {
    if n > 0 {
      SpanMapHolds(s, n - 1, dataSize, name);
    }
  }

  function SpanSum(s: seq<Tensor>, n: nat, dataSize: int): int
    requires n <= |s|
  {
    if n == 0 then 0 else SpanSum(s, n - 1, dataSize) + Span(s, n - 1, dataSize)
  }

  lemma {:induction false} Telescope(s: seq<Tensor>, n: nat, dataSize: int)
    requires n < |s| && s[0].offset == 0
    ensures SpanSum(s, n, dataSize) == s[n].offset && SpanSum(s, |s|, dataSize) == dataSize
    decreases |s| - n
  {
    if n + 1 < |s| {
      Telescope(s, n + 1, dataSize);
    } else {
      OffsetIs(s, n, dataSize);
    }
  }

  lemma {:induction false} OffsetIs(s: seq<Tensor>, n: nat, dataSize: int)
    requires n < |s| && s[0].offset == 0
    ensures SpanSum(s, n, dataSize) == s[n].offset
  {
    if n > 0 {
      OffsetIs(s, n - 1, dataSize);
    }
  }

  /** By how much charging the last span of each name instead of each tensor's own is off. */
  function Misplaced(s: seq<Tensor>, n: nat, dataSize: int): int
    requires n <= |s|
  {
    if n == 0 then 0
    else
      Misplaced(s, n - 1, dataSize) + SpanCharged(s, n - 1, dataSize) - Span(s, n - 1, dataSize)
  }

  function SpanCharged(s: seq<Tensor>, k: nat, dataSize: int): int
    requires k < |s|
  {
    var i := LastNamed(s, |s|, s[k].name);
    if i < |s| then Span(s, i, dataSize) else 0
  }

  lemma {:induction false} BytesAre(s: seq<Tensor>, n: nat, dataSize: int, size: Tensor -> nat)
    requires n <= |s| && forall k :: 0 <= k < |s| ==> size(s[k]) == SpanCharged(s, k, dataSize)
    ensures Bytes(s[..n], size) == SpanSum(s, n, dataSize) + Misplaced(s, n, dataSize)
  {
    hide SpanCharged, Span;
    if n > 0 {
      assert s[..n][..n - 1] == s[..n - 1];
      BytesAre(s, n - 1, dataSize, size);
    }
  }

  lemma {:induction false} BytesInsert(s: seq<Tensor>, t: Tensor, size: Tensor -> nat)
    ensures Bytes(Insert(s, t), size) == Bytes(s, size) + size(t)
  {
    var n := |s| - 1;
    if s == [] || s[n].offset <= t.offset {
      assert (s + [t])[..|s|] == s;
    } else {
      BytesInsert(s[..n], t, size);
      assert (Insert(s[..n], t) + [s[n]])[..n + 1] == Insert(s[..n], t);
    }
  }

  lemma {:induction false} BytesSorted(ts: seq<Tensor>, size: Tensor -> nat)
    ensures Bytes(Sorted(ts), size) == Bytes(ts, size)
  {
    if ts != [] {
      BytesSorted(ts[..|ts| - 1], size);
      BytesInsert(Sorted(ts[..|ts| - 1]), ts[|ts| - 1], size);
    }
  }

  ghost predicate NameIn(ts: seq<Tensor>, name: string) {
    exists i :: 0 <= i < |ts| && ts[i].name == name
  }

  lemma {:induction false} InsertNames(s: seq<Tensor>, t: Tensor)
    requires UniqueNames(s) && !NameIn(s, t.name)
    ensures UniqueNames(Insert(s, t)) && forall n :: NameIn(Insert(s, t), n) <==> NameIn(s, n) || n == t.name
  {
    var n := |s| - 1;
    if s == [] || s[n].offset <= t.offset {
      NamesAppend(s, t);
    } else {
      var front := s[..n];
      assert s == front + [s[n]];
      NamesAppend(front, s[n]);
      InsertNames(front, t);
      assert !NameIn(front, s[n].name);
      NamesAppend(Insert(front, t), s[n]);
    }
  }

  lemma NamesAppend(s: seq<Tensor>, t: Tensor)
    ensures forall n :: NameIn(s + [t], n) <==> NameIn(s, n) || n == t.name
    ensures UniqueNames(s) && !NameIn(s, t.name) ==> UniqueNames(s + [t])
  {
    var r := s + [t];
    assert r[|s|] == t;
    forall n ensures NameIn(r, n) <==> NameIn(s, n) || n == t.name {
      if NameIn(s, n) {
        var i :| 0 <= i < |s| && s[i].name == n;
        assert r[i].name == n;
      }
    }
  }

  lemma {:induction false} SortedNames(ts: seq<Tensor>)
    requires UniqueNames(ts)
    ensures UniqueNames(Sorted(ts)) && forall n :: NameIn(Sorted(ts), n) <==> NameIn(ts, n)
  {
    if ts != [] {
      var n := |ts| - 1;
      var front := ts[..n];
      assert ts == front + [ts[n]];
      SortedNames(front);
      NamesAppend(front, ts[n]);
      assert !NameIn(front, ts[n].name);
      InsertNames(Sorted(front), ts[n]);
    }
  }

  /** With usable offsets the tensors of a shard, in any order, are charged its data section and what
      repeated names misplace: they fill it exactly if and only if that comes to nothing. */
  lemma SpansTotal(ts: seq<Tensor>, dataSize: int)
    requires Usable(Sorted(ts), dataSize)
    ensures var total := Bytes(ts, SpanOf(SpanMap(Sorted(ts), |ts|, dataSize)));
            var off := Misplaced(Sorted(ts), |ts|, dataSize);
            total == dataSize + off && (total == dataSize <==> off == 0)
  {
    var s := Sorted(ts);
    var size := SpanOf(SpanMap(s, |s|, dataSize));
    forall k | 0 <= k < |s| ensures size(s[k]) == SpanCharged(s, k, dataSize) {
      SpanMapHolds(s, |s|, dataSize, s[k].name);
    }
    Telescope(s, 0, dataSize);
    BytesAre(s, |s|, dataSize, size);
    assert s[..|s|] == s;
    BytesSorted(ts, size);
  }

  /** No name twice but that of tensors i and j. */
  ghost predicate OnlyTwice(s: seq<Tensor>, i: nat, j: nat) {
    i < j < |s| && s[i].name == s[j].name &&
    forall a, b :: 0 <= a < b < |s| && s[a].name == s[b].name ==> a == i && b == j
  }

  lemma {:induction false} MisplacedPair(s: seq<Tensor>, n: nat, dataSize: int, i: nat, j: nat)
    requires n <= |s| && (UniqueNames(s) || OnlyTwice(s, i, j))
    ensures Misplaced(s, n, dataSize) ==
            if i < n && OnlyTwice(s, i, j) then Span(s, j, dataSize) - Span(s, i, dataSize) else 0
  {
    hide Span;
    if n > 0 {
      MisplacedPair(s, n - 1, dataSize, i, j);
      var last := LastNamed(s, |s|, s[n - 1].name);
      assert last < |s| && n - 1 <= last;
      assert last == if OnlyTwice(s, i, j) && n - 1 == i then j else n - 1;
    }
  }

  /** With unique names the spans of a shard's tensors fill its data section exactly. */
  lemma SpansFill(ts: seq<Tensor>, dataSize: int)
    requires UniqueNames(ts) && Usable(Sorted(ts), dataSize)
    ensures Bytes(ts, SpanOf(SpanMap(Sorted(ts), |ts|, dataSize))) == dataSize
  {
    SpansTotal(ts, dataSize);
    SortedNames(ts);
    MisplacedPair(Sorted(ts), |ts|, dataSize, 0, 0);
  }

  /** With one name twice, at i and j by offset, both are charged the span of j, so the data section is
      filled if and only if their spans are equal, whatever the other tensors are. */
  lemma SameNameTwice(ts: seq<Tensor>, dataSize: int, i: nat, j: nat)
    requires Usable(Sorted(ts), dataSize) && OnlyTwice(Sorted(ts), i, j)
    ensures var s := Sorted(ts); var total := Bytes(ts, SpanOf(SpanMap(s, |ts|, dataSize)));
            && total - dataSize == Span(s, j, dataSize) - Span(s, i, dataSize)
            && (total == dataSize <==> Span(s, i, dataSize) == Span(s, j, dataSize))
  {
    SpansTotal(ts, dataSize);
    MisplacedPair(Sorted(ts), |ts|, dataSize, i, j);
  }

  lemma SortedPair(a: Tensor, b: Tensor)
    requires a.offset <= b.offset
    ensures Sorted([a, b]) == [a, b]
  {
    assert [a, b][..1] == [a] && [a][..0] == [];
    assert Sorted([a]) == Insert([], a) == [a];
    assert [a] + [b] == [a, b];
  }

  /** Such a file: two tensors of one name, of a and b bytes, are charged 2 * b. */
  lemma LastSpanTwice(name: string, a: nat, b: nat)
    requires a > 0 && b > 0
    ensures var ts := [Tensor(name, 0, a), Tensor(name, a, b)];
            Usable(Sorted(ts), a + b) && Bytes(ts, SpanOf(SpanMap(Sorted(ts), 2, a + b))) == 2 * b
  {
    hide Sorted, Bytes, SpanMap, SpanOf;
    var ts := [Tensor(name, 0, a), Tensor(name, a, b)];
    SortedPair(ts[0], ts[1]);
    SameNameTwice(ts, a + b, 0, 1);
  }

  // Shards.

  /** One file of a model: its tensor headers, whether the table was read to the end, and its geometry. */
  datatype Shard = Shard(tensors: seq<Tensor>, complete: bool, headerEnd: nat, fileSize: nat, align: int)

  /** The bytes after the headers; a table cut short is accounted without a file. */
  function DataSize(s: Shard): int {
    if s.complete then s.fileSize - DataStart(s.headerEnd, s.align) else 0
  }

  /** Spans when the offsets allow it, type arithmetic otherwise. */
  function SizeIn(s: Shard): Tensor -> nat {
    if Usable(Sorted(s.tensors), DataSize(s)) then SpanOf(SpanMap(Sorted(s.tensors), |s.tensors|, DataSize(s))) else MathOf
  }

  function Parsed(t: Totals, shards: seq<Shard>, lookup: Lookup): Totals {
    if shards == [] then t
    else
      var last := shards[|shards| - 1];
      ChargeAll(Parsed(t, shards[..|shards| - 1], lookup), last.tensors, SizeIn(last), lookup)
  }

  ghost function AllOf(c: Column, at: Option<nat>, shards: seq<Shard>, lookup: Lookup): nat {
    if shards == [] then 0
    else
      var last := shards[|shards| - 1];
      AllOf(c, at, shards[..|shards| - 1], lookup) + SumOf(c, at, last.tensors, SizeIn(last), lookup)
  }

  lemma NothingStands(c: Column, at: Option<nat>)
    ensures Stands(NOTHING, c, at).Some? ==> Stands(NOTHING, c, at) == Some(0)
  {
  }

  /** Across all shards every column comes to the sizes of the tensors it counts. */
  lemma {:induction false} ShardsApart(shards: seq<Shard>, lookup: Lookup, c: Column, at: Option<nat>)
    ensures Stands(NOTHING, c, at).Some? ==>
              Stands(Parsed(NOTHING, shards, lookup), c, at) == Some(AllOf(c, at, shards, lookup))
    ensures Stands(NOTHING, c, at).None? ==> Stands(Parsed(NOTHING, shards, lookup), c, at).None?
  {
    hide ChargeAll, SumOf, SizeIn, Stands;
    if shards == [] {
      NothingStands(c, at);
    } else {
      var n := |shards| - 1;
      ShardsApart(shards[..n], lookup, c, at);
      TotalsApart(Parsed(NOTHING, shards[..n], lookup), shards[n].tensors, SizeIn(shards[n]), lookup);
    }
  }

  function AllBytes(shards: seq<Shard>): nat {
    if shards == [] then 0
    else AllBytes(shards[..|shards| - 1]) + Bytes(shards[|shards| - 1].tensors, SizeIn(shards[|shards| - 1]))
  }

  function AllData(shards: seq<Shard>): int {
    if shards == [] then 0 else AllData(shards[..|shards| - 1]) + DataSize(shards[|shards| - 1])
  }

  /** Across all shards the bytes are charged once and a layer's experts stay split; with usable offsets
      and unique names in every shard they add up to the data sections. */
  lemma {:induction false} ShardsFill(shards: seq<Shard>, lookup: Lookup)
    ensures var u := Parsed(NOTHING, shards, lookup);
            && u.expert + u.nonExpert == AllBytes(shards) && ExpertsSplit(u.layers)
            && ((forall s <- shards :: UniqueNames(s.tensors) && Usable(Sorted(s.tensors), DataSize(s))) ==>
                  u.expert + u.nonExpert == AllData(shards))
  {
    hide ChargeAll, ExpertsSplit, Bytes, DataSize;
    if shards == [] {
      NothingSplit();
    } else {
      var n := |shards| - 1;
      var s := shards[n];
      ShardsFill(shards[..n], lookup);
      EachChargedOnce(Parsed(NOTHING, shards[..n], lookup), s.tensors, SizeIn(s), lookup);
      if UniqueNames(s.tensors) && Usable(Sorted(s.tensors), DataSize(s)) {
        SpansFill(s.tensors, DataSize(s));
      }
      assert s in shards;
    }
  }

  lemma NothingSplit()
    ensures ExpertsSplit(NOTHING.layers)
  {
  }

  /** The result dictionary's byte fields. */
  class Accounts {
    var totals: Totals

    constructor ()
      ensures totals == NOTHING
    {
      totals := NOTHING;
    }

    /** _account_tensors. */
    method Account(ts: seq<Tensor>, headerEnd: nat, fileSize: nat, align: int, lookup: Lookup)
      modifies this
      ensures totals == ChargeAll(old(totals), ts, SizeIn(Shard(ts, true, headerEnd, fileSize, align)), lookup)
      ensures Grown(old(totals), totals, ts, SizeIn(Shard(ts, true, headerEnd, fileSize, align)), lookup)
    {
      hide Charge, Usable, SpanMap, Sorted, SpanOf, Grown;
      TotalsApart(totals, ts, SizeIn(Shard(ts, true, headerEnd, fileSize, align)), lookup);
      if ts == [] {
        return;
      }
      var ok, spans := Spans(Sorted(ts), fileSize - DataStart(headerEnd, align));
      var size: Tensor -> nat := if ok then SpanOf(spans) else MathOf;
      for i := 0 to |ts|
        invariant totals == ChargeAll(old(totals), ts[..i], size, lookup)
      {
        assert ts[..i + 1][..i] == ts[..i];
        totals := Charge(totals, ts[i].name, size(ts[i]), lookup);
      }
      assert ts[..|ts|] == ts;
    }

    /** The shards of a model in turn. */
    method Parse(shards: seq<Shard>, lookup: Lookup)
      requires totals == NOTHING
      modifies this
      ensures totals == Parsed(NOTHING, shards, lookup)
    {
      hide ChargeAll, Usable, SpanMap, Sorted, SpanOf;
      for i := 0 to |shards|
        invariant totals == Parsed(NOTHING, shards[..i], lookup)
      {
        var s := shards[i];
        assert shards[..i + 1][..i] == shards[..i];
        if s.complete {
          Account(s.tensors, s.headerEnd, s.fileSize, s.align, lookup);
        } else {
          CutShort(s);
          Account(s.tensors, 0, 0, 32, lookup);
        }
      }
      assert shards[..|shards|] == shards;
    }
  }

  lemma CutShort(s: Shard)
    requires !s.complete
    ensures SizeIn(Shard(s.tensors, true, 0, 0, 32)) == SizeIn(s)
  {
    assert DataStart(0, 32) == 0;
  }

  // Publication.

  /** A per-layer table as an array: at least as long as the model has layers, longer if a key is. */
  method Publish(values: PerLayer, layers: nat) returns (out: Option<seq<nat>>)
    ensures out.None? <==> |values| == 0
    ensures out.Some? ==> forall k: nat :: Entry(out, k) == At(values, k)
    ensures out.Some? ==> |out.value| == layers || (|out.value| > layers && |out.value| - 1 in values)
    ensures out.Some? ==> forall k <- values :: k < |out.value|
  {
    if |values| == 0 {
      return None;
    }
    var count := layers;
    var left := values.Keys;
    while exists k :: k in left
      decreases |left|
      invariant left <= values.Keys && count >= layers
      invariant count == layers || count - 1 in values
      invariant forall k <- values :: k in left || k < count
    {
      var k :| k in left;
      left := left - {k};
      if k + 1 > count {
        count := k + 1;
      }
    }
    out := Some(seq(count, i requires 0 <= i < count => At(values, i)));
  }

  /** A published array read past its end, or never published, says 0. */
  function Entry(a: Option<seq<nat>>, k: nat): nat {
    if a.Some? && k < |a.value| then a.value[k] else 0
  }

  /** The published arrays of a model: layer by layer expert bytes are routed plus shared, whatever the
      arrays' lengths. */
  method PublishExperts(l: Layers, layers: nat) returns (expert: Option<seq<nat>>, routed: Option<seq<nat>>, shared: Option<seq<nat>>)
    requires ExpertsSplit(l)
    ensures forall k: nat :: Entry(expert, k) == Entry(routed, k) + Entry(shared, k)
  {
    expert := Publish(l.expert, layers);
    routed := Publish(l.routed, layers);
    shared := Publish(l.shared, layers);
    forall k: nat ensures Entry(expert, k) == Entry(routed, k) + Entry(shared, k) {
      EmptyTable(l.expert, k);
      EmptyTable(l.routed, k);
      EmptyTable(l.shared, k);
    }
  }

  lemma EmptyTable(m: PerLayer, k: nat)
    ensures |m| == 0 ==> At(m, k) == 0
  {
  }
}

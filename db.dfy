/**
 * The second-dialect (SQL Server) side of the database adapter: rewriting
 * positional `?` placeholders as named `@p0, @p1, ...` parameters, with an
 * array argument expanded into one name per element for `IN (?)`, and the
 * best-effort column type chosen for each bound value.
 */
module MsQuery {

  import opened Strings

  /** A JavaScript value passed as a query parameter. */
  datatype Value =
    | Undefined
    | Null
    | Num(n: real)
    | Bool(b: bool)
    | Str(s: string)
    | Date(ms: int)
    | Buffer(bytes: seq<bv8>)
    | Arr(elems: seq<Value>)
    | Obj

  datatype NamedParam = NamedParam(name: string, value: Value)

  /** The driver's column types that the adapter picks from. */
  datatype MsType = NVarChar | Int | Float | Bit | DateTime2 | VarBinaryMax | NVarCharMax

  /** The name of the i-th pushed parameter: "p" followed by i in decimal. */
  function ParamName(i: nat): string {
    "p" + NatToString(i)
  }

  /** `params[j]`, which is `undefined` past the end of the array. */
  function Arg(params: seq<Value>, j: nat): Value {
    if j < |params| then params[j] else Undefined
  }

  /** What one `?` pushes: every element of an array, or the value itself. */
  function Contribution(v: Value): seq<Value> {
    if v.Arr? then v.elems else [v]
  }

  /** The values pushed for the first k placeholders. */
  function FlatArgs(params: seq<Value>, k: nat): seq<Value> {
    if k == 0 then [] else FlatArgs(params, k - 1) + Contribution(Arg(params, k - 1))
  }

  /** A one-level flattening of a list of arguments, read from the front. */
  function Flatten(s: seq<Value>): seq<Value> {
    if s == [] then [] else Contribution(s[0]) + Flatten(s[1..])
  }

  /** Values numbered consecutively from 0 in push order. */
  function Named(vals: seq<Value>): seq<NamedParam> {
    seq(|vals|, i requires 0 <= i < |vals| => NamedParam(ParamName(i), vals[i]))
  }

  /** The names written in place of one `?` whose value is v and whose first name is number `base`. */
  function PlaceholderNames(v: Value, base: nat): seq<string> {
    var k := |Contribution(v)|;
    seq(k, i requires 0 <= i < k => "@" + ParamName(base + i))
  }

  function Placeholder(v: Value, base: nat): string {
    Join(PlaceholderNames(v, base), ",")
  }

  /** The text after the first k placeholders of `chunks` have been replaced. */
  function RewrittenText(chunks: seq<string>, params: seq<Value>, k: nat): string
    requires k < |chunks|
  {
    if k == 0 then chunks[0]
    else RewrittenText(chunks, params, k - 1)
         + Placeholder(Arg(params, k - 1), |FlatArgs(params, k - 1)|) + chunks[k]
  }

  /** The number of `?` in the query. */
  function Placeholders(q: string): nat {
    CountChar(q, '?')
  }

  ghost function PreparedText(q: string, params: seq<Value>): string {
    RewrittenText(Split(q, '?'), params, Placeholders(q))
  }

  ghost function PreparedParams(q: string, params: seq<Value>): seq<NamedParam> {
    Named(FlatArgs(params, Placeholders(q)))
  }

  lemma NamedSnoc(vals: seq<Value>, v: Value)
    ensures Named(vals + [v]) == Named(vals) + [NamedParam(ParamName(|vals|), v)]
  {
  }

  lemma PushStep(before: seq<Value>, elems: seq<Value>, j: nat)
    requires j < |elems|
    ensures Named(before + elems[..j + 1])
         == Named(before + elems[..j]) + [NamedParam(ParamName(|before + elems[..j]|), elems[j])]
  {
    assert before + elems[..j + 1] == before + elems[..j] + [elems[j]];
    NamedSnoc(before + elems[..j], elems[j]);
  }

  /** One more placeholder: the text grows by its replacement and chunk, the values by its contribution. */
  lemma RewriteStep(chunks: seq<string>, params: seq<Value>, k: nat)
    requires 0 < k < |chunks|
    ensures RewrittenText(chunks, params, k)
         == RewrittenText(chunks, params, k - 1) + Placeholder(Arg(params, k - 1), |FlatArgs(params, k - 1)|) + chunks[k]
    ensures FlatArgs(params, k) == FlatArgs(params, k - 1) + Contribution(Arg(params, k - 1))
    ensures !Arg(params, k - 1).Arr? ==>
      Placeholder(Arg(params, k - 1), |FlatArgs(params, k - 1)|) == "@" + ParamName(|FlatArgs(params, k - 1)|)
  {
  }

  /**
   * The inner loop of `prepareMsQuery` for an array argument: each element is
   * pushed under the next free name, and the names are collected for the text.
   */
  method PushElements(namedParams0: seq<NamedParam>, ghost before: seq<Value>, elems: seq<Value>)
    returns (names: seq<string>, namedParams: seq<NamedParam>)
    requires namedParams0 == Named(before)
    ensures names == PlaceholderNames(Arr(elems), |before|)
    ensures namedParams == Named(before + elems)
  {
    names := [];
    namedParams := namedParams0;
    var j := 0;
    while j < |elems|
      invariant 0 <= j <= |elems|
      invariant names == PlaceholderNames(Arr(elems), |before|)[..j]
      invariant namedParams == Named(before + elems[..j])
    {
      var name := ParamName(|namedParams|);
      PushStep(before, elems, j);
      namedParams := namedParams + [NamedParam(name, elems[j])];
      names := names + ["@" + name];
      j := j + 1;
    }
    assert elems[..j] == elems;
  }

  /**
   * `prepareMsQuery`: splits the query on `?`, and for each later chunk takes
   * the next argument, pushes its value(s) under fresh names and appends the
   * name(s) and the chunk to the text.
   */
  method PrepareMsQuery(q: string, params: seq<Value>) returns (text: string, namedParams: seq<NamedParam>)
    ensures text == PreparedText(q, params)
    ensures namedParams == PreparedParams(q, params)
  {
    var paramIndex := 0;
    namedParams := [];
    var chunks := Split(q, '?');
    text := chunks[0];
    var i := 1;
    while i < |chunks|
      invariant 1 <= i <= |chunks|
      invariant paramIndex == i - 1
      invariant text == RewrittenText(chunks, params, i - 1)
      invariant namedParams == Named(FlatArgs(params, i - 1))
    {
      var val := Arg(params, paramIndex);
      paramIndex := paramIndex + 1;
      ghost var before := FlatArgs(params, i - 1);
      RewriteStep(chunks, params, i);
      if val.Arr? {
        var names;
        names, namedParams := PushElements(namedParams, before, val.elems);
        text := text + Join(names, ",") + chunks[i];
      } else {
        var name := ParamName(|namedParams|);
        NamedSnoc(before, val);
        namedParams := namedParams + [NamedParam(name, val)];
        text := text + ("@" + name) + chunks[i];
      }
      i := i + 1;
    }
  }

  // ----- what the rewrite promises -----

  /** A query without `?` comes back unchanged, with no named parameters. */
  lemma NoPlaceholders(q: string, params: seq<Value>)
    requires '?' !in q
    ensures PreparedText(q, params) == q
    ensures PreparedParams(q, params) == []
  {
    SplitWithout(q, '?');
  }

  /** The pushed values are the arguments of the `?`s, flattened one level, in order. */
  lemma {:induction false} FlatArgsIsFlatten(params: seq<Value>, k: nat)
    requires k <= |params|
    ensures FlatArgs(params, k) == Flatten(params[..k])
    decreases k
  {
    if k > 0 {
      FlatArgsIsFlatten(params, k - 1);
      FlattenSnoc(params[..k - 1], params[k - 1]);
      assert params[..k] == params[..k - 1] + [params[k - 1]];
    }
  }

  lemma {:induction false} FlattenSnoc(s: seq<Value>, v: Value)
    ensures Flatten(s + [v]) == Flatten(s) + Contribution(v)
    decreases |s|
  {
    if s == [] {
      assert [v][1..] == [];
    } else {
      assert (s + [v])[1..] == s[1..] + [v];
      FlattenSnoc(s[1..], v);
    }
  }

  /** Arguments past the k-th `?` play no part. */
  lemma {:induction false} ExtraArgsIgnored(params: seq<Value>, extra: seq<Value>, k: nat)
    requires k <= |params|
    ensures FlatArgs(params + extra, k) == FlatArgs(params, k)
    decreases k
  {
    if k > 0 {
      ExtraArgsIgnored(params, extra, k - 1);
      assert Arg(params + extra, k - 1) == Arg(params, k - 1);
    }
  }

  /** With one argument per `?`, adding arguments after them changes neither the text nor the parameters. */
  lemma {:induction false} ExtraArgsIgnoredByPrepare(q: string, params: seq<Value>, extra: seq<Value>)
    requires Placeholders(q) <= |params|
    ensures PreparedText(q, params + extra) == PreparedText(q, params)
    ensures PreparedParams(q, params + extra) == PreparedParams(q, params)
  {
    ExtraArgsIgnored(params, extra, Placeholders(q));
    ExtraTextIgnored(Split(q, '?'), params, extra, Placeholders(q));
  }

  lemma {:induction false} ExtraTextIgnored(chunks: seq<string>, params: seq<Value>, extra: seq<Value>, k: nat)
    requires k < |chunks| && k <= |params|
    ensures RewrittenText(chunks, params + extra, k) == RewrittenText(chunks, params, k)
    decreases k
  {
    if k > 0 {
      ExtraTextIgnored(chunks, params, extra, k - 1);
      ExtraArgsIgnored(params, extra, k - 1);
      var pe := params + extra;
      assert pe[k - 1] == params[k - 1];
      var ph1 := Placeholder(Arg(pe, k - 1), |FlatArgs(pe, k - 1)|);
      var ph2 := Placeholder(Arg(params, k - 1), |FlatArgs(params, k - 1)|);
      assert ph1 == ph2;
      assert RewrittenText(chunks, pe, k) == RewrittenText(chunks, pe, k - 1) + ph1 + chunks[k];
      assert RewrittenText(chunks, params, k) == RewrittenText(chunks, params, k - 1) + ph2 + chunks[k];
    }
  }

  /** The number of named parameters: one per scalar argument, k per array of length k. */
  lemma {:induction false} FlatArgsLength(params: seq<Value>, k: nat)
    ensures |FlatArgs(params, k)| == Width(params, k)
    decreases k
  {
    if k > 0 {
      FlatArgsLength(params, k - 1);
    }
  }

  function Width(params: seq<Value>, k: nat): nat {
    if k == 0 then 0
    else Width(params, k - 1) + (var v := Arg(params, k - 1); if v.Arr? then |v.elems| else 1)
  }

  /** With scalar arguments only, each `?` binds exactly its own argument. */
  lemma {:induction false} ScalarArgs(params: seq<Value>, k: nat)
    requires k <= |params|
    requires forall j :: 0 <= j < k ==> !params[j].Arr?
    ensures FlatArgs(params, k) == params[..k]
    decreases k
  {
    if k > 0 {
      ScalarArgs(params, k - 1);
      assert params[..k] == params[..k - 1] + [params[k - 1]];
    }
  }

  lemma FirstNames()
    ensures ParamName(0) == "p0" && ParamName(1) == "p1" && ParamName(2) == "p2"
    ensures ParamName(3) == "p3" && ParamName(4) == "p4" && ParamName(5) == "p5"
  {
  }

  /** The i-th named parameter is "p" + i, so no two share a name. */
  lemma NamesDistinct(vals: seq<Value>, i: nat, j: nat)
    requires i < |vals| && j < |vals| && i != j
    ensures Named(vals)[i].name != Named(vals)[j].name
  {
    NatToStringInjective(i, j);
    assert Named(vals)[i].name == "p" + NatToString(i);
    assert Named(vals)[j].name == "p" + NatToString(j);
    if NatToString(i) == NatToString(j) {
    } else {
      assert ("p" + NatToString(i))[1..] == NatToString(i);
      assert ("p" + NatToString(j))[1..] == NatToString(j);
    }
  }

  /** The replacement of one `?` splits on "," into one "@p<n>" name per pushed value. */
  lemma PlaceholderSplits(v: Value, base: nat)
    requires |Contribution(v)| >= 1
    ensures Split(Placeholder(v, base), ',') == PlaceholderNames(v, base)
  {
    PlaceholderNamesWithout(v, base, ',');
    SplitJoin(PlaceholderNames(v, base), ',');
  }

  /** A character other than `@`, `p` and the digits occurs in no parameter name. */
  lemma PlaceholderNamesWithout(v: Value, base: nat, c: char)
    requires c != '@' && c != 'p' && !IsDigit(c)
    ensures forall i :: 0 <= i < |PlaceholderNames(v, base)| ==> c !in PlaceholderNames(v, base)[i]
  {
    var names := PlaceholderNames(v, base);
    forall i | 0 <= i < |names| ensures c !in names[i] {
      var digits := NatToString(base + i);
      DigitsWithout(digits, c);
      assert ParamName(base + i) == "p" + digits;
      assert names[i] == "@" + ParamName(base + i);
    }
  }

  /** An empty array leaves nothing in place of its `?`. */
  lemma EmptyArrayPlaceholder(base: nat)
    ensures Placeholder(Arr([]), base) == ""
  {
  }

  /** After the rewrite no `?` is left in the text. */
  lemma NoPlaceholderLeft(q: string, params: seq<Value>)
    ensures '?' !in PreparedText(q, params)
  {
    var chunks := Split(q, '?');
    RewrittenWithout(chunks, params, Placeholders(q));
  }

  lemma {:induction false} RewrittenWithout(chunks: seq<string>, params: seq<Value>, k: nat)
    requires k < |chunks|
    requires forall i :: 0 <= i < |chunks| ==> '?' !in chunks[i]
    ensures '?' !in RewrittenText(chunks, params, k)
    decreases k
  {
    if k > 0 {
      RewrittenWithout(chunks, params, k - 1);
      var v := Arg(params, k - 1);
      var base := |FlatArgs(params, k - 1)|;
      PlaceholderNamesWithout(v, base, '?');
      JoinWithout(PlaceholderNames(v, base), ",", '?');
      var prev, ph := RewrittenText(chunks, params, k - 1), Placeholder(v, base);
      assert '?' !in prev && '?' !in ph && '?' !in chunks[k];
      assert RewrittenText(chunks, params, k) == prev + ph + chunks[k];
    }
  }

  // ----- type inference -----

  /** `Number.isInteger` on a finite number. */
  predicate IsInteger(x: real) {
    x.Floor as real == x
  }

  /** `inferMsType`: nullish values bind as NVarChar, numbers as Int or Float, and so on. */
  function InferMsType(v: Value): MsType {
    match v
    case Undefined => NVarChar
    case Null => NVarChar
    case Num(n) => if IsInteger(n) then Int else Float
    case Bool(_) => Bit
    case Date(_) => DateTime2
    case Buffer(_) => VarBinaryMax
    case Arr(_) => NVarCharMax
    case Obj => NVarCharMax
    case Str(_) => NVarCharMax
  }

  /** The value bound for a named parameter: `p.value ?? null`. */
  function BoundValue(v: Value): Value {
    if v.Undefined? then Null else v
  }

  /**
   * The type chosen for a value: nullish values get the plain NVarChar, the
   * others a type that matches the JavaScript kind of the value, and binding
   * the coalesced value keeps that type.
   */
  lemma InferMsTypeSpec(v: Value)
    ensures InferMsType(BoundValue(v)) == InferMsType(v)
    ensures (InferMsType(v) == NVarChar) == (v.Undefined? || v.Null?)
    ensures (InferMsType(v) == Int) == (v.Num? && IsInteger(v.n))
    ensures (InferMsType(v) == Float) == (v.Num? && !IsInteger(v.n))
    ensures (InferMsType(v) == Bit) == v.Bool?
    ensures (InferMsType(v) == DateTime2) == v.Date?
    ensures (InferMsType(v) == VarBinaryMax) == v.Buffer?
    ensures (InferMsType(v) == NVarCharMax) == (v.Str? || v.Arr? || v.Obj?)
  {
  }
}

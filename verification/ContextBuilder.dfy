/** The prompt context of src/query/context_builder.rs and the loop that trims it to a token budget. */
module ContextBuilder {
  import opened Wrappers

  datatype CorpusType = Legal | Contract | Rfc | OtherCorpus

  datatype SearchResult = SearchResult(text: string, corpusType: Option<CorpusType>, title: Option<string>)

  datatype Group = Static | Dynamic

  // ----- the context text -----

  function Label(group: Group, r: SearchResult): string {
    match group
    case Dynamic => "用户数据"
    case Static =>
      match r.corpusType
      case Some(Legal) => "法规"
      case Some(Contract) => "合同"
      case Some(Rfc) => "RFC"
      case _ => "法规/合同"
  }

  function Decimal(n: nat): string {
    var digit := ['0', '1', '2', '3', '4', '5', '6', '7', '8', '9'][n % 10];
    if n < 10 then [digit] else Decimal(n / 10) + [digit]
  }

  /** The number a run of decimal digits spells. */
  function Numeral(s: string): nat {
    if s == "" then 0
    else 10 * Numeral(s[..|s| - 1]) + if '0' <= s[|s| - 1] <= '9' then s[|s| - 1] as nat - '0' as nat else 0
  }

  /** Decimals spell their number, in digits only and without a leading zero. */
  lemma {:induction false} DecimalReads(n: nat)
    ensures Numeral(Decimal(n)) == n
    ensures Decimal(n) != "" && forall i :: 0 <= i < |Decimal(n)| ==> '0' <= Decimal(n)[i] <= '9'
    ensures n > 0 ==> Decimal(n)[0] != '0'
  {
    if n >= 10 {
      DecimalReads(n / 10);
    }
  }

  /** `chunk_block`. */
  function Block(group: Group, index: nat, r: SearchResult): string {
    "[" + Label(group, r) + " #" + Decimal(index + 1) + "]"
    + (if r.title.Some? then " " + r.title.value else "")
    + "\n" + r.text + "\n\n"
  }

  lemma SplitOnce(a: string, b: string, c: char, x: string, y: string)
    requires a + [c] + b == x + [c] + y && c !in a && c !in x
    ensures a == x && b == y
  {
    NotBefore(a, b, c, x, y);
    NotBefore(x, y, c, a, b);
    assert a == (a + [c] + b)[..|a|] && x == (x + [c] + y)[..|a|];
    assert b == (a + [c] + b)[|a| + 1..] && y == (x + [c] + y)[|a| + 1..];
  }

  lemma NotBefore(a: string, b: string, c: char, x: string, y: string)
    requires a + [c] + b == x + [c] + y && c !in x
    ensures |a| >= |x|
  {
    assert (a + [c] + b)[|a|] == c;
    assert forall i :: 0 <= i < |x| ==> (x + [c] + y)[i] == x[i];
  }

  lemma LabelIsPlain(group: Group, r: SearchResult)
    ensures '\n' !in Label(group, r) && ']' !in Label(group, r) && '#' !in Label(group, r)
  {
  }

  lemma NumberIsPlain(n: nat)
    ensures '\n' !in Decimal(n) && ']' !in Decimal(n) && '#' !in Decimal(n)
  {
    DecimalReads(n);
  }

  function Heading(group: Group, index: nat, r: SearchResult): string {
    "[" + Label(group, r) + " #" + Decimal(index + 1) + "]" + (if r.title.Some? then " " + r.title.value else "")
  }

  /** A block shows its group's label, its number, its title and its text: blocks that look alike agree on them, if
      their titles are single lines. */
  lemma BlockShows(g: Group, i: nat, r: SearchResult, h: Group, j: nat, q: SearchResult)
    requires Block(g, i, r) == Block(h, j, q)
    requires (r.title.Some? ==> '\n' !in r.title.value) && (q.title.Some? ==> '\n' !in q.title.value)
    ensures i == j && Label(g, r) == Label(h, q) && r.title == q.title && r.text == q.text
  {
    hide Label, Decimal;
    LabelIsPlain(g, r);
    LabelIsPlain(h, q);
    NumberIsPlain(i + 1);
    NumberIsPlain(j + 1);
    assert Block(g, i, r) == Heading(g, i, r) + ['\n'] + (r.text + "\n\n");
    assert Block(h, j, q) == Heading(h, j, q) + ['\n'] + (q.text + "\n\n");
    SplitOnce(Heading(g, i, r), r.text + "\n\n", '\n', Heading(h, j, q), q.text + "\n\n");
    assert r.text == (r.text + "\n\n")[..|r.text|] && q.text == (q.text + "\n\n")[..|q.text|];
    HeadingShows(g, i, r, h, j, q);
  }

  lemma HeadingShows(g: Group, i: nat, r: SearchResult, h: Group, j: nat, q: SearchResult)
    requires Heading(g, i, r) == Heading(h, j, q)
    ensures i == j && Label(g, r) == Label(h, q) && r.title == q.title
  {
    hide Label, Decimal;
    LabelIsPlain(g, r);
    LabelIsPlain(h, q);
    NumberIsPlain(i + 1);
    NumberIsPlain(j + 1);
    var a, x := "[" + Label(g, r) + " #" + Decimal(i + 1), "[" + Label(h, q) + " #" + Decimal(j + 1);
    var b, y := if r.title.Some? then " " + r.title.value else "", if q.title.Some? then " " + q.title.value else "";
    assert Heading(g, i, r) == a + [']'] + b && Heading(h, j, q) == x + [']'] + y;
    SplitOnce(a, b, ']', x, y);
    assert r.title.Some? ==> r.title.value == b[1..];
    assert q.title.Some? ==> q.title.value == y[1..];
    var c, z := "[" + Label(g, r) + " ", "[" + Label(h, q) + " ";
    assert a == c + ['#'] + Decimal(i + 1) && x == z + ['#'] + Decimal(j + 1);
    SplitOnce(c, Decimal(i + 1), '#', z, Decimal(j + 1));
    assert Label(g, r) == c[1..|c| - 1] && Label(h, q) == z[1..|z| - 1];
    DecimalReads(i + 1);
    DecimalReads(j + 1);
  }

  function Blocks(group: Group, chunks: seq<SearchResult>): string {
    if chunks == [] then ""
    else Blocks(group, chunks[..|chunks| - 1]) + Block(group, |chunks| - 1, chunks[|chunks| - 1])
  }

  const HEADER := "=== 参考资料 ===\n\n"
  const QUESTION := "=== 问题 ===\n"

  function Context(statics: seq<SearchResult>, dynamics: seq<SearchResult>, query: string): string {
    HEADER + Blocks(Static, statics) + Blocks(Dynamic, dynamics) + (QUESTION + query)
  }

  /** `build_context`. */
  method BuildContext(statics: seq<SearchResult>, dynamics: seq<SearchResult>, query: string) returns (out: string)
    ensures out == Context(statics, dynamics, query)
  {
    hide Block;
    out := HEADER;
    for i := 0 to |statics|
      invariant out == HEADER + Blocks(Static, statics[..i])
    {
      assert statics[..i + 1][..i] == statics[..i];
      out := out + Block(Static, i, statics[i]);
    }
    assert statics[..|statics|] == statics;
    for i := 0 to |dynamics|
      invariant out == HEADER + Blocks(Static, statics) + Blocks(Dynamic, dynamics[..i])
    {
      assert dynamics[..i + 1][..i] == dynamics[..i];
      out := out + Block(Dynamic, i, dynamics[i]);
    }
    assert dynamics[..|dynamics|] == dynamics;
    out := out + (QUESTION + query);
  }

  lemma OneBlock(group: Group, r: SearchResult)
    ensures Blocks(group, [r]) == Block(group, 0, r)
  {
    assert [r][..0] == [];
  }

  /** One titled statute and one untitled document of the user. */
  lemma OneOfEach(law: string, title: string, doc: string, query: string)
    ensures Context([SearchResult(law, Some(Legal), Some(title))], [SearchResult(doc, None, None)], query)
            == "=== 参考资料 ===\n\n" + ("[法规 #1] " + title + "\n" + law + "\n\n")
               + ("[用户数据 #1]" + "\n" + doc + "\n\n") + ("=== 问题 ===\n" + query)
  {
    hide Block;
    OneBlock(Static, SearchResult(law, Some(Legal), Some(title)));
    OneBlock(Dynamic, SearchResult(doc, None, None));
    FirstStatute(law, title);
    FirstDocument(doc);
  }

  lemma FirstStatute(law: string, title: string)
    ensures Block(Static, 0, SearchResult(law, Some(Legal), Some(title)))
            == "[法规 #1] " + title + "\n" + law + "\n\n"
  {
    assert Decimal(1) == "1";
    assert "[" + "法规" + " #" + "1" + "]" + (" " + title) == "[法规 #1] " + title;
  }

  lemma FirstDocument(doc: string)
    ensures Block(Dynamic, 0, SearchResult(doc, None, None)) == "[用户数据 #1]" + "\n" + doc + "\n\n"
  {
    assert Decimal(1) == "1";
    assert "[" + "用户数据" + " #" + "1" + "]" + "" == "[用户数据 #1]";
  }

  /** A second contract, a tenth RFC, and static blocks of no such type. */
  lemma LaterBlocks(text: string, r: SearchResult)
    requires r.title == None && r.corpusType != Some(Legal) && r.corpusType != Some(Contract)
        && r.corpusType != Some(Rfc)
    ensures Block(Static, 1, SearchResult(text, Some(Contract), None)) == "[合同 #2]" + "\n" + text + "\n\n"
    ensures Block(Static, 9, SearchResult(text, Some(Rfc), None)) == "[RFC #10]" + "\n" + text + "\n\n"
    ensures Block(Static, 0, r) == "[法规/合同 #1]" + "\n" + r.text + "\n\n"
  {
    SecondContract();
    TenthRfc();
    FirstOther();
  }

  lemma SecondContract()
    ensures "[" + "合同" + " #" + Decimal(2) + "]" + "" == "[合同 #2]"
  {
    assert Decimal(2) == "2";
  }

  lemma TenthRfc()
    ensures "[" + "RFC" + " #" + Decimal(10) + "]" + "" == "[RFC #10]"
  {
    assert Decimal(1) == "1" && Decimal(10) == "10";
  }

  lemma FirstOther()
    ensures "[" + "法规/合同" + " #" + Decimal(1) + "]" + "" == "[法规/合同 #1]"
  {
    assert Decimal(1) == "1";
  }

  // ----- token estimates -----

  predicate IsCjk(c: char) {
    || '\U{3000}' <= c <= '\U{303F}' || '\U{3400}' <= c <= '\U{4DBF}' || '\U{4E00}' <= c <= '\U{9FFF}'
    || '\U{F900}' <= c <= '\U{FAFF}' || '\U{FF00}' <= c <= '\U{FFEF}'
    || '\U{20000}' <= c <= '\U{2FA1F}' || '\U{30000}' <= c <= '\U{3134F}'
  }

  /** First and last of the blocks that count as one token a character: punctuation, extension A, unified ideographs,
      compatibility ideographs, fullwidth forms, extensions B to F with their supplement, extension G. */
  const CJK_BLOCKS: seq<(int, int)> := [(0x3000, 0x303F), (0x3400, 0x4DBF), (0x4E00, 0x9FFF), (0xF900, 0xFAFF),
                                        (0xFF00, 0xFFEF), (0x20000, 0x2FA1F), (0x30000, 0x3134F)]

  lemma CjkIsBlocks(c: char)
    ensures IsCjk(c) <==> exists i :: 0 <= i < |CJK_BLOCKS| && CJK_BLOCKS[i].0 <= c as int <= CJK_BLOCKS[i].1
  {
    var b, n := CJK_BLOCKS, c as int;
    assert IsCjk(c) ==>
        || b[0].0 <= n <= b[0].1 || b[1].0 <= n <= b[1].1 || b[2].0 <= n <= b[2].1 || b[3].0 <= n <= b[3].1
        || b[4].0 <= n <= b[4].1 || b[5].0 <= n <= b[5].1 || b[6].0 <= n <= b[6].1;
  }

  function CjkCount(text: string): (n: nat)
    ensures n <= |text|
  {
    if text == "" then 0 else CjkCount(text[..|text| - 1]) + if IsCjk(text[|text| - 1]) then 1 else 0
  }

  /** One token per CJK character and one per four others, rounded up. */
  function Estimate(text: string): nat {
    CjkCount(text) + (|text| - CjkCount(text) + 3) / 4
  }

  method EstimateTokens(text: string) returns (tokens: nat)
    ensures tokens == Estimate(text)
  {
    var cjk, other := 0, 0;
    for i := 0 to |text|
      invariant cjk == CjkCount(text[..i]) && cjk + other == i
    {
      assert text[..i + 1][..i] == text[..i];
      if IsCjk(text[i]) {
        cjk := cjk + 1;
      } else {
        other := other + 1;
      }
    }
    assert text[..|text|] == text;
    tokens := cjk + (other + 3) / 4;
  }

  lemma {:induction false} CjkCountAdds(a: string, b: string)
    ensures CjkCount(a + b) == CjkCount(a) + CjkCount(b)
  {
    if b == "" {
      assert a + b == a;
    } else {
      assert (a + b)[..|a + b| - 1] == a + b[..|b| - 1];
      CjkCountAdds(a, b[..|b| - 1]);
    }
  }

  /** Cutting a text in two never lowers its estimate. */
  lemma EstimateOfParts(a: string, b: string)
    ensures Estimate(a + b) <= Estimate(a) + Estimate(b)
  {
    CjkCountAdds(a, b);
  }

  lemma EmptyIsFree()
    ensures Estimate("") == 0
  {
  }

  /** The estimates of an English, a Chinese and a mixed text. */
  lemma ExampleEstimates()
    ensures Estimate("hello world") == 3 && Estimate("你好世界") == 4 && Estimate("合同termination条款") == 7
  {
    LatinIsNotCjk("hello world");
    LatinIsNotCjk("termination");
    HanIsCjk("你好世界");
    HanIsCjk("合同");
    HanIsCjk("条款");
    assert "合同termination条款" == "合同" + "termination" + "条款";
    CjkCountAdds("合同", "termination");
    CjkCountAdds("合同" + "termination", "条款");
  }

  lemma {:induction false} LatinIsNotCjk(text: string)
    requires forall i :: 0 <= i < |text| ==> text[i] < '\U{0080}'
    ensures CjkCount(text) == 0
  {
    if text != "" {
      LatinIsNotCjk(text[..|text| - 1]);
    }
  }

  lemma {:induction false} HanIsCjk(text: string)
    requires forall i :: 0 <= i < |text| ==> '\U{4E00}' <= text[i] <= '\U{9FFF}'
    ensures CjkCount(text) == |text|
  {
    if text != "" {
      HanIsCjk(text[..|text| - 1]);
    }
  }

  function Costs(group: Group, chunks: seq<SearchResult>): (costs: seq<nat>)
    ensures |costs| == |chunks|
  {
    seq(|chunks|, i requires 0 <= i < |chunks| => Estimate(Block(group, i, chunks[i])))
  }

  /** The sum of the first `n` costs. */
  function Total(costs: seq<nat>, n: nat): nat
    requires n <= |costs|
  {
    if n == 0 then 0 else Total(costs, n - 1) + costs[n - 1]
  }

  lemma {:induction false} EstimateOfBlocks(group: Group, chunks: seq<SearchResult>, n: nat)
    requires n <= |chunks|
    ensures Estimate(Blocks(group, chunks[..n])) <= Total(Costs(group, chunks), n)
  {
    hide Estimate, Block;
    if n == 0 {
      EmptyIsFree();
    } else {
      EstimateOfBlocks(group, chunks, n - 1);
      assert chunks[..n][..n - 1] == chunks[..n - 1];
      EstimateOfParts(Blocks(group, chunks[..n - 1]), Block(group, n - 1, chunks[n - 1]));
    }
  }

  /** Per-block estimates never underestimate the whole context. */
  lemma EstimateOfContext(statics: seq<SearchResult>, dynamics: seq<SearchResult>, query: string, ks: nat, kd: nat)
    requires ks <= |statics| && kd <= |dynamics|
    ensures Estimate(Context(statics[..ks], dynamics[..kd], query))
            <= Estimate(Context([], [], query)) + Total(Costs(Static, statics), ks) +
                Total(Costs(Dynamic, dynamics), kd)
  {
    hide Total, Costs;
    EstimateOfBlocks(Static, statics, ks);
    EstimateOfBlocks(Dynamic, dynamics, kd);
    EstimateOfPieces(Blocks(Static, statics[..ks]), Blocks(Dynamic, dynamics[..kd]), QUESTION + query);
  }

  lemma EstimateOfPieces(a: string, b: string, tail: string)
    ensures Estimate(HEADER + a + b + tail) <= Estimate(HEADER + "" + "" + tail) + Estimate(a) + Estimate(b)
  {
    hide CjkCount;
    CjkCountAdds(HEADER, a);
    CjkCountAdds(HEADER + a, b);
    CjkCountAdds(HEADER + a + b, tail);
    assert HEADER + "" + "" + tail == HEADER + tail;
    CjkCountAdds(HEADER, tail);
  }

  // ----- the budget loop -----

  /** How far static leads. */
  function Lead(s: seq<nat>, d: seq<nat>, ks: nat, kd: nat): int
    requires ks <= |s| && kd <= |d|
  {
    Total(s, ks) - Total(d, kd)
  }

  /** With both groups non-empty, a trimmed group lags by no more than one block dropped from it. */
  ghost predicate Balanced(s: seq<nat>, d: seq<nat>, ks: nat, kd: nat)
    requires ks <= |s| && kd <= |d|
  {
    ks > 0 && kd > 0 ==>
      && (ks < |s| && Lead(s, d, ks, kd) < 0 ==> exists i :: ks <= i < |s| && -Lead(s, d, ks, kd) <= s[i])
      && (kd < |d| && Lead(s, d, ks, kd) > 0 ==> exists j :: kd <= j < |d| && Lead(s, d, ks, kd) <= d[j])
  }

  /** Nothing was dropped, or putting the last dropped block back exceeds the budget. */
  ghost predicate LastDropNeeded(fixed: nat, s: seq<nat>, d: seq<nat>, ks: nat, kd: nat, maxTokens: nat)
    requires ks <= |s| && kd <= |d|
  {
    || (ks == |s| && kd == |d|)
    || (ks < |s| && fixed + Total(s, ks + 1) + Total(d, kd) > maxTokens)
    || (kd < |d| && fixed + Total(s, ks) + Total(d, kd + 1) > maxTokens)
  }

  /** Which group loses its last block: the costlier one, on equal cost the longer one, and a non-empty one in any
      case. */
  function DropsStatic(s: seq<nat>, d: seq<nat>, ks: nat, kd: nat): bool
    requires ks <= |s| && kd <= |d|
  {
    if kd == 0 then true
    else if ks == 0 then false
    else Lead(s, d, ks, kd) > 0 || (Lead(s, d, ks, kd) == 0 && ks > kd)
  }

  /** The counts the trimming ends with. */
  function Trimmed(fixed: nat, s: seq<nat>, d: seq<nat>, ks: nat, kd: nat, maxTokens: nat): (nat, nat)
    requires ks <= |s| && kd <= |d|
    decreases ks + kd
  {
    if fixed + Total(s, ks) + Total(d, kd) <= maxTokens || (ks == 0 && kd == 0) then (ks, kd)
    else if DropsStatic(s, d, ks, kd) then Trimmed(fixed, s, d, ks - 1, kd, maxTokens)
    else Trimmed(fixed, s, d, ks, kd - 1, maxTokens)
  }

  /** The loop of `build_context_bounded`: drop the last block of the costlier group until the rest fits. */
  method KeptCounts(fixed: nat, s: seq<nat>, d: seq<nat>, maxTokens: nat) returns (ks: nat, kd: nat)
    ensures ks <= |s| && kd <= |d|
    ensures fixed + Total(s, ks) + Total(d, kd) <= maxTokens || (ks == 0 && kd == 0)
    ensures LastDropNeeded(fixed, s, d, ks, kd, maxTokens)
    ensures Balanced(s, d, ks, kd)
    ensures (ks, kd) == Trimmed(fixed, s, d, |s|, |d|, maxTokens)
  {
    ks, kd := |s|, |d|;
    var staticTotal, dynamicTotal := Total(s, ks), Total(d, kd);
    while fixed + staticTotal + dynamicTotal > maxTokens && (ks > 0 || kd > 0)
      invariant ks <= |s| && kd <= |d| && staticTotal == Total(s, ks) && dynamicTotal == Total(d, kd)
      invariant LastDropNeeded(fixed, s, d, ks, kd, maxTokens)
      invariant Balanced(s, d, ks, kd)
      invariant Trimmed(fixed, s, d, ks, kd, maxTokens) == Trimmed(fixed, s, d, |s|, |d|, maxTokens)
      decreases ks + kd
    {
      var dropStatic :=
        if kd == 0 then true
        else if ks == 0 then false
        else if staticTotal != dynamicTotal then staticTotal > dynamicTotal
        else ks > kd;
      if dropStatic {
        DropStaticBalanced(s, d, ks, kd);
        ks := ks - 1;
        staticTotal := staticTotal - s[ks];
      } else {
        DropDynamicBalanced(s, d, ks, kd);
        kd := kd - 1;
        dynamicTotal := dynamicTotal - d[kd];
      }
    }
  }

  /** On equal costs the longer group loses a block, and between groups of one length the dynamic one. */
  lemma EqualCosts(fixed: nat, cost: nat)
    requires cost > 0
    ensures Trimmed(fixed, [cost, cost], [2 * cost], 2, 1, fixed + 3 * cost) == (1, 1)
    ensures Trimmed(fixed, [2 * cost], [cost, cost], 1, 2, fixed + 3 * cost) == (1, 1)
    ensures Trimmed(fixed, [cost], [cost], 1, 1, fixed + cost) == (1, 0)
  {
    var one, two := [cost, cost], [2 * cost];
    assert Total(one, 1) == cost && Total(one, 2) == 2 * cost && Total(two, 1) == 2 * cost;
    assert Total([cost], 1) == cost && Total([cost], 0) == 0;
  }

  lemma DropStaticBalanced(s: seq<nat>, d: seq<nat>, ks: nat, kd: nat)
    requires 0 < ks <= |s| && kd <= |d| && (kd == 0 || Lead(s, d, ks, kd) >= 0) && Balanced(s, d, ks, kd)
    ensures Balanced(s, d, ks - 1, kd)
  {
    var lead := Lead(s, d, ks - 1, kd);
    if ks > 1 && kd > 0 {
      assert lead == Lead(s, d, ks, kd) - s[ks - 1];
      if kd < |d| && lead > 0 {
        var j :| kd <= j < |d| && Lead(s, d, ks, kd) <= d[j];
        assert lead <= d[j];
      }
    }
  }

  lemma DropDynamicBalanced(s: seq<nat>, d: seq<nat>, ks: nat, kd: nat)
    requires ks <= |s| && 0 < kd <= |d| && (ks == 0 || Lead(s, d, ks, kd) <= 0) && Balanced(s, d, ks, kd)
    ensures Balanced(s, d, ks, kd - 1)
  {
    var lead := Lead(s, d, ks, kd - 1);
    if ks > 0 && kd > 1 {
      assert lead == Lead(s, d, ks, kd) + d[kd - 1];
      if ks < |s| && lead < 0 {
        var i :| ks <= i < |s| && -Lead(s, d, ks, kd) <= s[i];
        assert -lead <= s[i];
      }
    }
  }

  /** `ks` and `kd` chunks kept from the front of each group make a context within budget, as large as the last drop
      allows and with the two groups balanced. */
  ghost predicate IsBounded(statics: seq<SearchResult>, dynamics: seq<SearchResult>, query: string, maxTokens: nat,
      ks: nat, kd: nat)
    requires ks <= |statics| && kd <= |dynamics|
  {
    var fixed, s, d := Estimate(Context([], [], query)), Costs(Static, statics), Costs(Dynamic, dynamics);
    && (Estimate(Context(statics[..ks], dynamics[..kd], query)) <= maxTokens || (ks == 0 && kd == 0))
    && LastDropNeeded(fixed, s, d, ks, kd, maxTokens)
    && Balanced(s, d, ks, kd)
    && (ks, kd) == Trimmed(fixed, s, d, |s|, |d|, maxTokens)
  }

  method BlockCosts(group: Group, chunks: seq<SearchResult>) returns (costs: seq<nat>)
    ensures costs == Costs(group, chunks)
  {
    hide Block, Estimate;
    costs := [];
    for i := 0 to |chunks|
      invariant costs == Costs(group, chunks)[..i]
    {
      var cost := EstimateTokens(Block(group, i, chunks[i]));
      costs := costs + [cost];
    }
  }

  /** `build_context_bounded`. */
  method BuildContextBounded(statics: seq<SearchResult>, dynamics: seq<SearchResult>, query: string, maxTokens: nat)
      returns (out: string)
    ensures exists ks: nat, kd: nat ::
              && ks <= |statics| && kd <= |dynamics| && IsBounded(statics, dynamics, query, maxTokens, ks, kd)
              && out == Context(statics[..ks], dynamics[..kd], query)
  {
    hide Context, Costs, Estimate, LastDropNeeded, Balanced;
    var empty := BuildContext([], [], query);
    var fixed := EstimateTokens(empty);
    var s := BlockCosts(Static, statics);
    var d := BlockCosts(Dynamic, dynamics);
    var ks, kd := KeptCounts(fixed, s, d, maxTokens);
    EstimateOfContext(statics, dynamics, query, ks, kd);
    out := BuildContext(statics[..ks], dynamics[..kd], query);
    assert IsBounded(statics, dynamics, query, maxTokens, ks, kd);
  }

  lemma {:induction false} TotalGrows(costs: seq<nat>, n: nat, m: nat)
    requires n <= m <= |costs|
    ensures Total(costs, n) <= Total(costs, m)
  {
    if n < m {
      TotalGrows(costs, n, m - 1);
    }
  }

  /** A budget the block costs meet drops nothing. */
  lemma AmpleBudgetDropsNothing(fixed: nat, s: seq<nat>, d: seq<nat>, ks: nat, kd: nat, maxTokens: nat)
    requires ks <= |s| && kd <= |d| && LastDropNeeded(fixed, s, d, ks, kd, maxTokens)
    requires fixed + Total(s, |s|) + Total(d, |d|) <= maxTokens
    ensures ks == |s| && kd == |d|
  {
    TotalGrows(s, ks, |s|);
    TotalGrows(d, kd, |d|);
    if ks < |s| {
      TotalGrows(s, ks + 1, |s|);
    }
    if kd < |d| {
      TotalGrows(d, kd + 1, |d|);
    }
  }
}

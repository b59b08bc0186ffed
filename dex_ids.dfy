/** Dex-number ids: the fixed id patterns (`DEX_ID` is a number of one to
    three digits without a leading zero), the search for the first id in a
    text, the scan of free text for parenthesised ids, and the dex-range
    checks.

    The patterns are recognised by hand, over positions of the string. A
    `DEX_ID` that is followed in the pattern by something other than a digit
    (a dot, a letter, `_`, `)`) matches exactly a whole run of one to three
    digits starting with 1-9; a `DEX_ID` that ends the pattern takes
    greedily up to three digits. */
module DexIds {
  import opened Wrappers
  import opened Text
  import opened Enums

  const MaxDexId := 572
  const AutogenMaxId := 501
  const NecrozmaDexId := 450

  /** Length of the run of digits starting at position `i`. */
  function DigitRun(s: string, i: nat): (n: nat)
    requires i <= |s|
    ensures i + n <= |s|
    ensures i + n < |s| ==> !IsDigit(s[i + n])
    ensures n > 0 ==> IsDigit(s[i])
    decreases |s| - i
  {
    if i < |s| && IsDigit(s[i]) then 1 + DigitRun(s, i + 1) else 0
  }

  /** Everything in the run is a digit. */
  lemma {:induction false} DigitRunDigits(s: string, i: nat)
    requires i <= |s|
    ensures forall k :: i <= k < i + DigitRun(s, i) ==> IsDigit(s[k])
    decreases |s| - i
  {
    if i < |s| && IsDigit(s[i]) {
      DigitRunDigits(s, i + 1);
    }
  }

  /** A text that `DEX_ID` matches in full. */
  predicate IsComponent(c: string) {
    1 <= |c| <= 3 && IsNumeral(c) && c[0] != '0'
  }

  /** `DEX_ID` followed by a non-digit, starting at position `i`: where it
      ends. */
  function ComponentEnd(s: string, i: nat): (r: Option<nat>)
    requires i <= |s|
    ensures r.Some? ==> i + 1 <= r.value <= i + 3 && r.value <= |s| && '1' <= s[i] <= '9'
    ensures r.Some? ==> r.value < |s| ==> !IsDigit(s[r.value])
  {
    var n := DigitRun(s, i);
    if 1 <= n <= 3 && s[i] != '0' then Some(i + n) else None
  }

  /** What a component covers is a `DEX_ID` text. */
  lemma ComponentEndIsComponent(s: string, i: nat)
    requires i <= |s| && ComponentEnd(s, i).Some?
    ensures IsComponent(s[i..ComponentEnd(s, i).value])
  {
    DigitRunDigits(s, i);
  }

  /** `count` dot-separated `DEX_ID`s, each followed by a non-digit, starting
      at position `i`: where they end. */
  function ComponentsEnd(s: string, i: nat, count: nat): (r: Option<nat>)
    requires i <= |s| && count >= 1
    ensures r.Some? ==> i < r.value <= |s|
    decreases count
  {
    match ComponentEnd(s, i)
    case None => None
    case Some(e) =>
      if count == 1 then Some(e)
      else if e < |s| && s[e] == '.' then ComponentsEnd(s, e + 1, count - 1)
      else None
  }

  /** A number pattern (`NUMBER_PATTERN_*_ID` with `count` components) tried
      at position `i`: where the match ends. The last component is greedy. */
  function SearchEnd(s: string, i: nat, count: nat): (r: Option<nat>)
    requires i <= |s| && count >= 1
    ensures r.Some? ==> i < r.value <= |s|
    decreases count
  {
    if count == 1 then
      if i < |s| && '1' <= s[i] <= '9' then
        var d := DigitRun(s, i);
        Some(i + if d < 3 then d else 3)
      else None
    else
      match ComponentEnd(s, i)
      case None => None
      case Some(e) =>
        if e < |s| && s[e] == '.' then SearchEnd(s, e + 1, count - 1)
        else None
  }

  /** Full components are also what the greedy number pattern finds. */
  lemma {:induction false} LeadImpliesSearch(s: string, i: nat, count: nat)
    requires i <= |s| && count >= 1 && ComponentsEnd(s, i, count).Some?
    ensures SearchEnd(s, i, count) == ComponentsEnd(s, i, count)
    decreases count
  {
    if count > 1 {
      LeadImpliesSearch(s, ComponentEnd(s, i).value + 1, count - 1);
    }
  }

  /** `re.search`: the leftmost position at or after `from` where the number
      pattern matches, with the end of that match. */
  function SearchFrom(s: string, count: nat, from: nat): (r: Option<(nat, nat)>)
    requires count >= 1
    ensures r.Some? ==> from <= r.value.0 <= |s| && SearchEnd(s, r.value.0, count) == Some(r.value.1)
    ensures r.Some? ==> forall p :: from <= p < r.value.0 ==> SearchEnd(s, p, count).None?
    ensures r.None? ==> forall p :: from <= p <= |s| ==> SearchEnd(s, p, count).None?
    decreases |s| - from
  {
    if from > |s| then None
    else
      match SearchEnd(s, from, count)
      case Some(e) => Some((from, e))
      case None => SearchFrom(s, count, from + 1)
  }

  /** Positions where the pattern does not match are passed over. */
  lemma {:induction false} SearchFromSkip(s: string, count: nat, from: nat, to: nat)
    requires count >= 1 && from <= to <= |s|
    requires forall p :: from <= p < to ==> SearchEnd(s, p, count).None?
    ensures SearchFrom(s, count, from) == SearchFrom(s, count, to)
    decreases (to as int) - (from as int)
  {
    if from < to {
      SearchFromSkip(s, count, from + 1, to);
    }
  }

  /** The number pattern never starts at a non-digit. */
  lemma NoSearchAtNonDigit(s: string, p: nat, count: nat)
    requires p < |s| && !IsDigit(s[p]) && count >= 1
    ensures SearchEnd(s, p, count).None?
  {
    assert DigitRun(s, p) == 0;
  }

  /** A dot-separated id of `count` components, each one `DEX_ID`. */
  predicate DexIdText(s: string, count: nat) {
    var parts := Split(s, '.');
    |parts| == count && forall k :: 0 <= k < |parts| ==> IsComponent(parts[k])
  }

  /** A single component is a one-component id. */
  lemma ComponentIsDexId(c: string)
    requires IsComponent(c)
    ensures DexIdText(c, 1)
  {
    SplitWithoutSeparator(c, '.');
  }

  /** Prefixing a component and a dot adds one component. */
  lemma ConsDexId(a: string, rest: string, count: nat)
    requires IsComponent(a) && DexIdText(rest, count)
    ensures DexIdText(a + ['.'] + rest, count + 1)
  {
    SplitCons(a, rest, '.');
    var parts := Split(a + ['.'] + rest, '.');
    assert forall k :: 1 <= k < |parts| ==> parts[k] == Split(rest, '.')[k - 1];
  }

  /** A one-component match is a one-component id. */
  lemma SearchEndOneIsDexId(s: string, i: nat)
    requires i <= |s| && SearchEnd(s, i, 1).Some?
    ensures DexIdText(s[i..SearchEnd(s, i, 1).value], 1)
  {
    var e := SearchEnd(s, i, 1).value;
    DigitRunDigits(s, i);
    assert IsComponent(s[i..e]);
    ComponentIsDexId(s[i..e]);
  }

  /** What a number-pattern match covers is a well-formed id. */
  lemma {:induction false} SearchEndIsDexId(s: string, i: nat, count: nat)
    requires i <= |s| && count >= 1 && SearchEnd(s, i, count).Some?
    ensures DexIdText(s[i..SearchEnd(s, i, count).value], count)
    decreases count
  {
    var e := SearchEnd(s, i, count).value;
    if count == 1 {
      SearchEndOneIsDexId(s, i);
    } else {
      var a := ComponentEnd(s, i).value;
      SearchEndIsDexId(s, a + 1, count - 1);
      assert s[i..e] == s[i..a] + ['.'] + s[a + 1..e];
      ComponentEndIsComponent(s, i);
      ConsDexId(s[i..a], s[a + 1..e], count - 1);
    }
  }

  /** `get_clean_dex_ids`: the first id of the type's number pattern in the
      text (one component for custom bases and eggs, three for triples, two
      otherwise), or None when the pattern occurs nowhere. */
  function GetCleanDexIds(text: string, idType: IdType): (r: Option<string>)
    ensures r.Some? ==> DexIdText(r.value, idType.ComponentCount())
    ensures r.None? <==> forall p :: 0 <= p <= |text| ==> SearchEnd(text, p, idType.ComponentCount()).None?
  {
    var count := idType.ComponentCount();
    match SearchFrom(text, count, 0)
    case None => None
    case Some((p, e)) =>
      SearchEndIsDexId(text, p, count);
      Some(text[p..e])
  }

  /** A text pattern (`TEXT_PATTERN_*_ID`: `(`, the ids, an optional
      lower-case letter, `)`) tried at position `i`: where the match ends. */
  function TextMatchEnd(s: string, i: nat, count: nat): (r: Option<nat>)
    requires i <= |s| && count >= 1
    ensures r.Some? ==> i + 3 <= r.value <= |s| && s[i] == '('
  {
    if i < |s| && s[i] == '(' then
      match ComponentsEnd(s, i + 1, count)
      case None => None
      case Some(k) =>
        if k < |s| && s[k] == ')' then Some(k + 1)
        else if k + 1 < |s| && IsLower(s[k]) && s[k + 1] == ')' then Some(k + 2)
        else None
    else None
  }

  /** Full components consist of digits and dots only. */
  lemma {:induction false} ComponentsChars(s: string, i: nat, count: nat)
    requires i <= |s| && count >= 1 && ComponentsEnd(s, i, count).Some?
    ensures forall k :: i <= k < ComponentsEnd(s, i, count).value ==> IsDigit(s[k]) || s[k] == '.'
    decreases count
  {
    DigitRunDigits(s, i);
    if count > 1 {
      ComponentsChars(s, ComponentEnd(s, i).value + 1, count - 1);
    }
  }

  /** A text match holds no `(` after its first character, so no other match
      can begin inside it. */
  lemma NoParenInside(s: string, i: nat, count: nat)
    requires i <= |s| && count >= 1 && TextMatchEnd(s, i, count).Some?
    ensures forall q :: i < q < TextMatchEnd(s, i, count).value ==> s[q] != '('
  {
    ComponentsChars(s, i + 1, count);
  }

  /** `re.finditer` from position `from`: the non-overlapping text matches,
      left to right, as (start, end). */
  function FindAll(s: string, count: nat, from: nat): (r: seq<(nat, nat)>)
    requires count >= 1
    ensures forall k :: 0 <= k < |r| ==> from <= r[k].0 < r[k].1 <= |s|
    ensures forall k :: 0 <= k < |r| ==> TextMatchEnd(s, r[k].0, count) == Some(r[k].1)
    ensures forall k, l :: 0 <= k < l < |r| ==> r[k].1 <= r[l].0
    decreases |s| - from
  {
    if from >= |s| then []
    else
      match TextMatchEnd(s, from, count)
      case Some(e) => [(from, e)] + FindAll(s, count, e)
      case None => FindAll(s, count, from + 1)
  }

  /** Every position where the text pattern matches is reported: the scan
      misses no id. Together with the contract of `FindAll` this says the
      matches are exactly the matching positions, in text order. */
  lemma {:induction false} FindAllComplete(s: string, count: nat, from: nat, p: nat)
    requires count >= 1 && from <= p <= |s| && TextMatchEnd(s, p, count).Some?
    ensures (p, TextMatchEnd(s, p, count).value) in FindAll(s, count, from)
    decreases |s| - from
  {
    if from < p {
      match TextMatchEnd(s, from, count)
      case Some(e) =>
        NoParenInside(s, from, count);
        if p < e {
          assert false;
        }
        FindAllComplete(s, count, e, p);
      case None =>
        FindAllComplete(s, count, from + 1, p);
    }
  }

  /** Text found inside a slice is found there too, shifted. */
  lemma OccursInSlice(s: string, x: string, i: nat, p: nat, e: nat)
    requires p <= i && OccursAt(s, x, i) && i + |x| <= e <= |s|
    ensures OccursAt(s[p..e], x, i - p)
  {
    var m := s[p..e];
    forall j | 0 <= j < |x|
      ensures m[i - p..i - p + |x|][j] == x[j]
    {
      OccursAtChar(s, x, i, j);
    }
    assert m[i - p..i - p + |x|] == x;
  }

  /** The id written inside the text match at `p`. */
  function MatchedId(s: string, p: nat, count: nat): (r: string)
    requires count >= 1 && p <= |s| && TextMatchEnd(s, p, count).Some?
    ensures DexIdText(r, count)
  {
    var k := ComponentsEnd(s, p + 1, count).value;
    LeadImpliesSearch(s, p + 1, count);
    SearchEndIsDexId(s, p + 1, count);
    s[p + 1..k]
  }

  /** Cleaning a text match with the same type's number pattern yields the
      id inside the parentheses, never None. */
  lemma CleanOfTextMatch(s: string, p: nat, idType: IdType)
    requires p <= |s| && TextMatchEnd(s, p, idType.ComponentCount()).Some?
    ensures GetCleanDexIds(s[p..TextMatchEnd(s, p, idType.ComponentCount()).value], idType)
         == Some(MatchedId(s, p, idType.ComponentCount()))
  {
    var count := idType.ComponentCount();
    var k, e := TextMatchParts(s, p, count);
    var m := s[p..e];
    InnerOfTextMatch(s, p, count, k, e);
    LeadImpliesSearch(m, 1, count);
    CleanAfterParen(m, idType, k - p);
    assert m[1..k - p] == s[p + 1..k];
  }

  /** A text match is an opening parenthesis, components, and a non-digit
      after them inside the match. */
  lemma TextMatchParts(s: string, p: nat, count: nat) returns (k: nat, e: nat)
    requires p <= |s| && count >= 1 && TextMatchEnd(s, p, count).Some?
    ensures TextMatchEnd(s, p, count) == Some(e) && ComponentsEnd(s, p + 1, count) == Some(k)
    ensures p < k < e <= |s| && s[p] == '(' && !IsDigit(s[k])
  {
    e := TextMatchEnd(s, p, count).value;
    k := ComponentsEnd(s, p + 1, count).value;
  }

  /** Inside the text match at `p`, taken on its own, the components start
      after the parenthesis and end where they end in `s`. */
  lemma InnerOfTextMatch(s: string, p: nat, count: nat, k: nat, e: nat)
    requires p < k < e <= |s| && count >= 1 && ComponentsEnd(s, p + 1, count) == Some(k) && !IsDigit(s[k])
    ensures ComponentsEnd(s[p..e], 1, count) == Some(k - p)
  {
    var ids := ComponentsOf(s, p + 1, count);
    JoinComponentsOf(s, p + 1, count);
    JoinedInSlice(s, ids, p, k, e);
  }

  /** Components joined by dots right after `p` and followed by a non-digit
      at `k` are recognised in a slice from `p` that reaches past `k`. */
  lemma JoinedInSlice(s: string, ids: seq<string>, p: nat, k: nat, e: nat)
    requires |ids| >= 1 && forall j :: 0 <= j < |ids| ==> IsComponent(ids[j])
    requires OccursAt(s, Join(ids, '.'), p + 1) && p + 1 + |Join(ids, '.')| == k
    requires k < e <= |s| && !IsDigit(s[k])
    ensures ComponentsEnd(s[p..e], 1, |ids|) == Some(k - p)
  {
    var joined := Join(ids, '.');
    var m := s[p..e];
    assert 1 + |joined| < |m| && m[1 + |joined|] == s[k];
    OccursInSlice(s, joined, p + 1, p, e);
    ComponentsEndJoin(m, 1, ids, |ids|);
  }

  /** Cleaning a text that opens with a parenthesis followed by the number
      pattern yields what follows the parenthesis. */
  lemma CleanAfterParen(m: string, idType: IdType, k: nat)
    requires 1 <= |m| && m[0] == '(' && SearchEnd(m, 1, idType.ComponentCount()) == Some(k)
    ensures GetCleanDexIds(m, idType) == Some(m[1..k])
  {
    assert SearchEnd(m, 0, idType.ComponentCount()).None?;
  }

  /** The ids the text holds, in text order, for a pattern of `count`
      components. */
  function ContentIds(content: string, count: nat): (r: seq<string>)
    requires count >= 1
    ensures |r| == |FindAll(content, count, 0)|
    ensures forall k :: 0 <= k < |r| ==> DexIdText(r[k], count)
  {
    var matches := FindAll(content, count, 0);
    seq(|matches|, k requires 0 <= k < |matches| => MatchedId(content, matches[k].0, count))
  }

  /** `extract_fusion_ids_from_content`: the cleaned id of every text match,
      in text order. Custom bases and eggs use the one-number pattern,
      triples the three-number one, every other type (unknown included) the
      fusion pattern. */
  method ExtractFusionIdsFromContent(content: string, idType: IdType) returns (idList: seq<string>)
    ensures idList == ContentIds(content, idType.ComponentCount())
  {
    var count := idType.ComponentCount();
    var matches := FindAll(content, count, 0);
    ghost var ids := ContentIds(content, count);
    idList := [];
    var i := 0;
    while i < |matches|
      invariant 0 <= i <= |matches|
      invariant idList == ids[..i]
    {
      var (p, e) := matches[i];
      assert TextMatchEnd(content, p, count) == Some(e);
      CleanOfTextMatch(content, p, idType);
      var cleanId := GetCleanDexIds(content[p..e], idType);
      assert cleanId.value == ids[i];
      idList := idList + [cleanId.value];
      i := i + 1;
    }
    assert ids[..i] == ids;
  }

  /** A run of exactly `n` digits starting at `i`. */
  lemma {:induction false} DigitRunExact(s: string, i: nat, n: nat)
    requires i + n <= |s| && forall k :: i <= k < i + n ==> IsDigit(s[k])
    requires i + n == |s| || !IsDigit(s[i + n])
    ensures DigitRun(s, i) == n
    decreases n
  {
    if n > 0 {
      DigitRunExact(s, i + 1, n - 1);
    }
  }

  /** A component written at `i` and followed by a non-digit is recognised. */
  lemma ComponentAt(s: string, i: nat, c: string)
    requires IsComponent(c) && OccursAt(s, c, i)
    requires i + |c| == |s| || !IsDigit(s[i + |c|])
    ensures ComponentEnd(s, i) == Some(i + |c|)
  {
    assert forall k :: i <= k < i + |c| ==> s[k] == c[k - i];
    DigitRunExact(s, i, |c|);
  }

  /** One step of `ComponentsEnd`. */
  lemma ComponentsEndStep(s: string, i: nat, count: nat)
    requires i <= |s| && count >= 1 && ComponentEnd(s, i).Some?
    ensures var e := ComponentEnd(s, i).value;
      ComponentsEnd(s, i, count) ==
        if count == 1 then Some(e)
        else if e < |s| && s[e] == '.' then ComponentsEnd(s, e + 1, count - 1)
        else None
  {
  }

  /** A dot and then a digit at `e`. */
  predicate DotDigitAt(s: string, e: nat) {
    e + 1 < |s| && s[e] == '.' && IsDigit(s[e + 1])
  }

  /** Past a component and a dot, the remaining components. */
  lemma ComponentsEndNext(s: string, i: nat, count: nat, e: nat)
    requires i <= |s| && count > 1 && ComponentEnd(s, i) == Some(e) && e < |s| && s[e] == '.'
    ensures ComponentsEnd(s, i, count) == ComponentsEnd(s, e + 1, count - 1)
  {
  }

  /** A dot-joined list written at `i` starts with its head, a dot and the rest. */
  lemma JoinAt(s: string, i: nat, ids: seq<string>)
    requires |ids| > 1 && OccursAt(s, Join(ids, '.'), i)
    ensures OccursAt(s, ids[0], i) && s[i + |ids[0]|] == '.'
    ensures OccursAt(s, Join(ids[1..], '.'), i + |ids[0]| + 1)
    ensures |Join(ids, '.')| == |ids[0]| + 1 + |Join(ids[1..], '.')|
  {
    var rest := Join(ids[1..], '.');
    OccursAtConcat(s, ids[0] + ['.'], rest, i);
    OccursAtConcat(s, ids[0], ['.'], i);
  }

  /** Components joined by dots and written at `i`, followed by a non-digit:
      the first `count` of them are recognised, and when there are more a dot
      and a digit follow. */
  lemma {:induction false} ComponentsEndJoin(s: string, i: nat, ids: seq<string>, count: nat)
    requires 1 <= count <= |ids| && forall k :: 0 <= k < |ids| ==> IsComponent(ids[k])
    requires OccursAt(s, Join(ids, '.'), i)
    requires i + |Join(ids, '.')| == |s| || !IsDigit(s[i + |Join(ids, '.')|])
    ensures ComponentsEnd(s, i, count).Some?
    ensures count == |ids| ==> ComponentsEnd(s, i, count).value == i + |Join(ids, '.')|
    ensures count < |ids| ==> DotDigitAt(s, ComponentsEnd(s, i, count).value)
    decreases count, 1
  {
    if |ids| == 1 {
      JoinSingle(s, i, ids, count);
    } else if count == 1 {
      JoinFirst(s, i, ids);
    } else {
      JoinMore(s, i, ids, count);
    }
  }

  /** The first of several joined components ends before a dot and a digit. */
  lemma JoinFirst(s: string, i: nat, ids: seq<string>)
    requires |ids| > 1 && forall k :: 0 <= k < |ids| ==> IsComponent(ids[k])
    requires OccursAt(s, Join(ids, '.'), i)
    ensures ComponentsEnd(s, i, 1) == Some(i + |ids[0]|) && DotDigitAt(s, i + |ids[0]|)
  {
    JoinHead(s, i, ids);
    ComponentsEndStep(s, i, 1);
  }

  /** The inductive step of `ComponentsEndJoin`. */
  lemma {:induction false} JoinMore(s: string, i: nat, ids: seq<string>, count: nat)
    requires 1 < count <= |ids| && forall k :: 0 <= k < |ids| ==> IsComponent(ids[k])
    requires OccursAt(s, Join(ids, '.'), i)
    requires i + |Join(ids, '.')| == |s| || !IsDigit(s[i + |Join(ids, '.')|])
    ensures ComponentsEnd(s, i, count).Some?
    ensures count == |ids| ==> ComponentsEnd(s, i, count).value == i + |Join(ids, '.')|
    ensures count < |ids| ==> DotDigitAt(s, ComponentsEnd(s, i, count).value)
    decreases count, 0
  {
    var j := i + |ids[0]| + 1;
    var rest := ids[1..];
    JoinRest(s, i, ids, count);
    var n := |Join(rest, '.')|;
    assert j + n == i + |Join(ids, '.')|;
    ComponentsEndJoin(s, j, rest, count - 1);
    var r := ComponentsEnd(s, j, count - 1);
    assert ComponentsEnd(s, i, count) == r;
    if count == |ids| {
      assert r.value == j + n;
    } else {
      assert DotDigitAt(s, r.value);
    }
  }

  lemma JoinSingle(s: string, i: nat, ids: seq<string>, count: nat)
    requires |ids| == 1 && count == 1 && IsComponent(ids[0])
    requires OccursAt(s, Join(ids, '.'), i)
    requires i + |Join(ids, '.')| == |s| || !IsDigit(s[i + |Join(ids, '.')|])
    ensures ComponentsEnd(s, i, count) == Some(i + |Join(ids, '.')|)
  {
    assert Join(ids, '.') == ids[0];
    ComponentAt(s, i, ids[0]);
    ComponentsEndStep(s, i, count);
  }

  /** Past the head of a list of more than `count - 1` components, the
      components of its rest. */
  lemma JoinRest(s: string, i: nat, ids: seq<string>, count: nat)
    requires 1 < count <= |ids| && forall k :: 0 <= k < |ids| ==> IsComponent(ids[k])
    requires OccursAt(s, Join(ids, '.'), i)
    ensures var j := i + |ids[0]| + 1;
      ComponentsEnd(s, i, count) == ComponentsEnd(s, j, count - 1)
      && OccursAt(s, Join(ids[1..], '.'), j)
      && j + |Join(ids[1..], '.')| == i + |Join(ids, '.')|
      && forall k :: 0 <= k < |ids[1..]| ==> IsComponent(ids[1..][k])
  {
    JoinHead(s, i, ids);
    ComponentsEndNext(s, i, count, i + |ids[0]|);
    TailComponents(ids);
  }

  /** The head of a dot-joined list written at `i` is recognised, and a dot
      and the digit that starts the rest follow it. */
  lemma JoinHead(s: string, i: nat, ids: seq<string>)
    requires |ids| > 1 && forall k :: 0 <= k < |ids| ==> IsComponent(ids[k])
    requires OccursAt(s, Join(ids, '.'), i)
    ensures ComponentEnd(s, i) == Some(i + |ids[0]|)
    ensures i + |ids[0]| + 1 < |s| && s[i + |ids[0]|] == '.' && IsDigit(s[i + |ids[0]| + 1])
    ensures OccursAt(s, Join(ids[1..], '.'), i + |ids[0]| + 1)
    ensures |Join(ids, '.')| == |ids[0]| + 1 + |Join(ids[1..], '.')|
  {
    JoinAt(s, i, ids);
    ComponentAt(s, i, ids[0]);
    var j := i + |ids[0]| + 1;
    JoinHeadDigit(ids[1..]);
    OccursAtChar(s, Join(ids[1..], '.'), j, 0);
  }

  lemma TailComponents(ids: seq<string>)
    requires |ids| >= 1 && forall k :: 0 <= k < |ids| ==> IsComponent(ids[k])
    ensures forall k :: 0 <= k < |ids[1..]| ==> IsComponent(ids[1..][k])
  {
    forall k | 0 <= k < |ids[1..]| ensures IsComponent(ids[1..][k]) { assert ids[1..][k] == ids[k + 1]; }
  }

  /** A dot-joined list of components starts with a digit. */
  lemma JoinHeadDigit(ids: seq<string>)
    requires |ids| >= 1 && IsComponent(ids[0])
    ensures |Join(ids, '.')| > 0 && IsDigit(Join(ids, '.')[0])
  {
    if |ids| > 1 {
      assert Join(ids, '.') == ids[0] + ['.'] + Join(ids[1..], '.');
    }
  }

  /** Running on past `a` components means a dot and `b` more. */
  lemma {:induction false} ComponentsEndSplit(s: string, i: nat, a: nat, b: nat)
    requires i <= |s| && a >= 1 && b >= 1 && ComponentsEnd(s, i, a).Some?
    ensures var e := ComponentsEnd(s, i, a).value;
      ComponentsEnd(s, i, a + b) == if e < |s| && s[e] == '.' then ComponentsEnd(s, e + 1, b) else None
    decreases a
  {
    if a > 1 {
      ComponentsEndSplit(s, ComponentEnd(s, i).value + 1, a - 1, b);
    }
  }

  /** Recognised components read back as the list of them. */
  function ComponentsOf(s: string, i: nat, count: nat): (ids: seq<string>)
    requires i <= |s| && count >= 1 && ComponentsEnd(s, i, count).Some?
    ensures |ids| == count && forall k :: 0 <= k < |ids| ==> IsComponent(ids[k])
    decreases count
  {
    var a := ComponentEnd(s, i).value;
    ComponentEndIsComponent(s, i);
    if count == 1 then [s[i..a]]
    else [s[i..a]] + ComponentsOf(s, a + 1, count - 1)
  }

  /** Joined back with dots, the components read are exactly the text they
      were read from. */
  lemma {:induction false} JoinComponentsOf(s: string, i: nat, count: nat)
    requires i <= |s| && count >= 1 && ComponentsEnd(s, i, count).Some?
    ensures OccursAt(s, Join(ComponentsOf(s, i, count), '.'), i)
    ensures i + |Join(ComponentsOf(s, i, count), '.')| == ComponentsEnd(s, i, count).value
    decreases count, 1
  {
    if count == 1 {
      var a := ComponentEnd(s, i).value;
      ComponentsEndStep(s, i, count);
      assert ComponentsOf(s, i, count) == [s[i..a]];
    } else {
      JoinComponentsMore(s, i, count);
    }
  }

  /** The inductive step of `JoinComponentsOf`. */
  lemma {:induction false} JoinComponentsMore(s: string, i: nat, count: nat)
    requires i <= |s| && count > 1 && ComponentsEnd(s, i, count).Some?
    ensures OccursAt(s, Join(ComponentsOf(s, i, count), '.'), i)
    ensures i + |Join(ComponentsOf(s, i, count), '.')| == ComponentsEnd(s, i, count).value
    decreases count, 0
  {
    var a := ComponentEnd(s, i).value;
    ComponentsEndAfter(s, i, count);
    JoinComponentsOf(s, a + 1, count - 1);
    JoinComponentsOfStep(s, i, count);
    Assemble(s, i, a, Join(ComponentsOf(s, i, count), '.'), Join(ComponentsOf(s, a + 1, count - 1), '.'),
      ComponentsEnd(s, a + 1, count - 1).value);
  }

  /** Several components are the first, a dot and the others. */
  lemma ComponentsEndAfter(s: string, i: nat, count: nat)
    requires i <= |s| && count > 1 && ComponentsEnd(s, i, count).Some?
    ensures var a := ComponentEnd(s, i).value;
      a < |s| && s[a] == '.' && ComponentsEnd(s, i, count) == ComponentsEnd(s, a + 1, count - 1)
  {
  }

  /** A text made of a piece of `s`, a dot and a text found after the dot
      is found where the piece starts. */
  lemma Assemble(s: string, i: nat, a: nat, whole: string, j: string, e: nat)
    requires i <= a < |s| && s[a] == '.' && whole == s[i..a] + ['.'] + j
    requires OccursAt(s, j, a + 1) && a + 1 + |j| == e
    ensures OccursAt(s, whole, i) && i + |whole| == e
  {
    SliceOne(s, a);
    assert OccursAt(s, s[i..a], i) && OccursAt(s, ['.'], a);
    OccursAtThree(s, s[i..a], ['.'], j, i);
  }

  lemma OccursAtThree(s: string, x: string, y: string, z: string, i: nat)
    requires OccursAt(s, x, i) && OccursAt(s, y, i + |x|) && OccursAt(s, z, i + |x| + |y|)
    ensures OccursAt(s, x + y + z, i)
  {
    OccursAtConcat(s, x, y, i);
    OccursAtConcat(s, x + y, z, i);
  }

  lemma ComponentsOfStep(s: string, i: nat, count: nat)
    requires i <= |s| && count > 1 && ComponentsEnd(s, i, count).Some?
    ensures var a := ComponentEnd(s, i).value;
      a < |s| && ComponentsEnd(s, a + 1, count - 1).Some?
      && ComponentsOf(s, i, count) == [s[i..a]] + ComponentsOf(s, a + 1, count - 1)
  {
  }

  lemma JoinComponentsOfStep(s: string, i: nat, count: nat)
    requires i <= |s| && count > 1 && ComponentsEnd(s, i, count).Some?
    ensures var a := ComponentEnd(s, i).value;
      a < |s| && ComponentsEnd(s, a + 1, count - 1).Some?
      && Join(ComponentsOf(s, i, count), '.') == s[i..a] + ['.'] + Join(ComponentsOf(s, a + 1, count - 1), '.')
  {
    var a := ComponentEnd(s, i).value;
    ComponentsOfStep(s, i, count);
    JoinCons(s[i..a], ComponentsOf(s, a + 1, count - 1), '.');
  }

  lemma SliceOne(s: string, a: nat)
    requires a < |s|
    ensures s[a..a + 1] == [s[a]]
  {
  }

  lemma JoinCons(head: string, rest: seq<string>, sep: char)
    requires |rest| >= 1
    ensures Join([head] + rest, sep) == head + [sep] + Join(rest, sep)
  {
    assert ([head] + rest)[1..] == rest;
  }

  /** A dot-joined list of components holds only digits and dots, and every
      dot in it is followed by a digit. */
  lemma {:induction false} JoinedComponentsChars(ids: seq<string>)
    requires |ids| >= 1 && forall k :: 0 <= k < |ids| ==> IsComponent(ids[k])
    ensures var j := Join(ids, '.');
      |j| > 0 && IsDigit(j[0]) && IsDigit(j[|j| - 1])
      && (forall k :: 0 <= k < |j| ==> IsDigit(j[k]) || j[k] == '.')
      && (forall k :: 0 <= k < |j| && j[k] == '.' ==> k + 1 < |j| && IsDigit(j[k + 1]))
  {
    if |ids| > 1 {
      assert forall k :: 0 <= k < |ids[1..]| ==> IsComponent(ids[1..][k]);
      JoinedComponentsChars(ids[1..]);
      var c := ids[0];
      var rest := Join(ids[1..], '.');
      var j := Join(ids, '.');
      assert j == c + ['.'] + rest;
      forall k | 0 <= k < |j| ensures IsDigit(j[k]) || j[k] == '.' {
        if k < |c| { assert j[k] == c[k]; }
        else if k > |c| { assert j[k] == rest[k - |c| - 1]; }
      }
      forall k | 0 <= k < |j| && j[k] == '.' ensures k + 1 < |j| && IsDigit(j[k + 1]) {
        if k > |c| { assert j[k] == rest[k - |c| - 1]; assert j[k + 1] == rest[k - |c|]; }
        else if k == |c| { assert j[k + 1] == rest[0]; }
      }
    }
  }

  /** The parts `is_invalid_fusion_id` checks: split on dots when there is a
      dot, otherwise the whole id. */
  function FusionIdParts(fusionId: string): (parts: seq<string>)
    ensures parts == Split(fusionId, '.')
  {
    if Contains(fusionId, ".") then Split(fusionId, '.')
    else
      assert forall j :: 0 <= j < |fusionId| ==> fusionId[j] != '.' by {
        forall j | 0 <= j < |fusionId| ensures fusionId[j] != '.' {
          assert !OccursAt(fusionId, ".", j);
          assert fusionId[j..j + 1] == [fusionId[j]];
        }
      }
      SplitWithoutSeparator(fusionId, '.');
      [fusionId]
  }

  predicate AllNumerals(parts: seq<string>) {
    forall k :: 0 <= k < |parts| ==> IsNumeral(parts[k])
  }

  /** The loop with early return: some part, read as a number, exceeds the
      limit. */
  function AnyAbove(parts: seq<string>, limit: int): (r: bool)
    requires AllNumerals(parts)
    ensures r <==> exists k :: 0 <= k < |parts| && ParseNat(parts[k]) > limit
  {
    if |parts| == 0 then false
    else if ParseNat(parts[0]) > limit then true
    else
      assert forall k :: 1 <= k < |parts| ==> parts[k] == parts[1..][k - 1];
      AnyAbove(parts[1..], limit)
  }

  /** `is_invalid_fusion_id`: some component is beyond the last dex number. */
  predicate IsInvalidFusionId(fusionId: string)
    requires AllNumerals(Split(fusionId, '.'))
  {
    AnyAbove(FusionIdParts(fusionId), MaxDexId)
  }

  /** `is_invalid_base_id`. */
  predicate IsInvalidBaseId(baseId: string)
    requires IsNumeral(baseId)
  {
    ParseNat(baseId) > MaxDexId
  }

  /** The id a list of numbers is written as. */
  function JoinNumbers(ns: seq<nat>): (s: string)
    requires |ns| >= 1
  {
    Join(seq(|ns|, k requires 0 <= k < |ns| => NatToString(ns[k])), '.')
  }

  /** Splitting a written id gives back the written numbers. */
  lemma SplitJoinNumbers(ns: seq<nat>)
    requires |ns| >= 1
    ensures Split(JoinNumbers(ns), '.') == seq(|ns|, k requires 0 <= k < |ns| => NatToString(ns[k]))
    ensures AllNumerals(Split(JoinNumbers(ns), '.'))
  {
    var parts := seq(|ns|, k requires 0 <= k < |ns| => NatToString(ns[k]));
    SplitJoin(parts, '.');
  }

  /** For an id written from numbers, invalidity means some number is beyond
      the last dex number; a single number is valid exactly when the base
      check accepts it. */
  lemma InvalidFusionIdOfNumbers(ns: seq<nat>)
    requires |ns| >= 1
    ensures AllNumerals(Split(JoinNumbers(ns), '.'))
    ensures IsInvalidFusionId(JoinNumbers(ns)) <==> exists k :: 0 <= k < |ns| && ns[k] > MaxDexId
    ensures |ns| == 1 ==> (IsInvalidFusionId(JoinNumbers(ns)) <==> IsInvalidBaseId(NatToString(ns[0])))
  {
    SplitJoinNumbers(ns);
    var parts := Split(JoinNumbers(ns), '.');
    forall k | 0 <= k < |ns| ensures ParseNat(parts[k]) == ns[k] {
      ParseNatToString(ns[k]);
    }
  }

  /** `is_missing_autogen`: the body is Necrozma, or either number is past
      the last autogenerated one. */
  predicate IsMissingAutogen(fusionId: string)
    requires |Split(fusionId, '.')| >= 2
    requires IsNumeral(Split(fusionId, '.')[0]) && IsNumeral(Split(fusionId, '.')[1])
  {
    var parts := Split(fusionId, '.');
    var headId := ParseNat(parts[0]);
    var bodyId := ParseNat(parts[1]);
    if bodyId == NecrozmaDexId then true
    else headId > AutogenMaxId || bodyId > AutogenMaxId
  }

  /** For the id "head.body", autogen is missing exactly when the body is 450
      or either number is above 501. */
  lemma MissingAutogenOfPair(head: nat, body: nat)
    ensures |Split(JoinNumbers([head, body]), '.')| == 2
    ensures AllNumerals(Split(JoinNumbers([head, body]), '.'))
    ensures IsMissingAutogen(JoinNumbers([head, body]))
        <==> body == 450 || head > 501 || body > 501
  {
    SplitJoinNumbers([head, body]);
    var parts := Split(JoinNumbers([head, body]), '.');
    ParseNatToString(head);
    ParseNatToString(body);
    assert parts[0] == NatToString(head) && parts[1] == NatToString(body);
  }

  /** `is_chat_gpt_in_filename`: a case-sensitive "ChatGPT" prefix. */
  predicate IsChatGptInFilename(filename: string) {
    StartsWith(filename, "ChatGPT")
  }

  /** `attachment_not_an_image`: the content type is missing or is not an
      image type. */
  predicate AttachmentNotAnImage(contentType: Option<string>) {
    contentType.None? || !StartsWith(contentType.value, "image")
  }

  /** A missing content type is not an image; a present one is an image
      exactly when it is "image" followed by anything ("image/png",
      "image/gif", and "image" itself). */
  lemma AttachmentNotAnImageSpec(contentType: Option<string>)
    ensures contentType.None? ==> AttachmentNotAnImage(contentType)
    ensures contentType.Some? ==>
      (!AttachmentNotAnImage(contentType) <==> exists rest :: contentType.value == "image" + rest)
  {
    if contentType.Some? {
      var t := contentType.value;
      if StartsWith(t, "image") {
        assert t == "image" + t[5..];
      } else {
        forall rest
          ensures t != "image" + rest
        {
          assert ("image" + rest)[..5] == "image";
        }
      }
    }
  }
}

/** The simple grid-arithmetic task (`dps/envs/simple_grid_arithmetic.py`): the grid
    task configured by strings. `reductions` is `"c:key c:key ..."` (or one bare key),
    `arithmetic_actions` is a whitespace-separated list of keys; the dataset is built by
    the grid task's `make_dataset`, and the network adds a salience window over a padded
    copy of the input. */
module SimpleGridArithmetic {
  import opened Wrappers
  import opened Sorting
  import opened Strings
  import opened Dicts
  import opened Activations
  import opened Grids
  import opened GridArithmetic

  // ---------------------------------------------------------------- reductions string

  /** `reductions_dict`; an unknown key raises `KeyError`. */
  function LookupReduction(key: string): (r: Result<Reduction>)
    ensures r.Ok? <==> key in {"sum", "prod", "max", "min", "len"}
  {
    if key == "sum" then Ok(Sum)
    else if key == "prod" then Ok(Product)
    else if key == "max" then Ok(Max)
    else if key == "min" then Ok(Min)
    else if key == "len" then Ok(Count)
    else Err("KeyError")
  }

  function ReductionName(f: Reduction): string
  {
    match f
    case Sum => "sum"
    case Product => "prod"
    case Max => "max"
    case Min => "min"
    case Count => "len"
  }

  lemma LookupName(f: Reduction)
    ensures LookupReduction(ReductionName(f)) == Ok(f)
  {
  }

  /** `char, key = pair.split(':')`, then the lookup: anything but exactly two pieces
      raises `ValueError`. */
  function ParsePair(pair: string): (r: Result<(string, Reduction)>)
  {
    var pieces := Split(pair, ':');
    if |pieces| != 2 then Err("ValueError")
    else
      match LookupReduction(pieces[1])
      case Ok(f) => Ok((pieces[0], f))
      case Err(e) => Err(e)
  }

  /** The pairs of the words, left to right; the first bad word's error. */
  function ParsePairs(words: seq<string>): (r: Result<seq<(string, Reduction)>>)
    ensures r.Ok? ==> |r.value| == |words|
  {
    if words == [] then Ok([])
    else
      match ParsePair(words[0])
      case Err(e) => Err(e)
      case Ok(p) =>
        match ParsePairs(words[1..])
        case Err(e) => Err(e)
        case Ok(ps) => Ok([p] + ps)
  }

  /** The reductions and `show_op` the dataset constructor settles on. Without ':' the
      whole stripped string names one reduction, called 'A', and the operator is hidden. */
  function Reductions(s: string, showOp: bool): Result<(seq<(string, Reduction)>, bool)>
  {
    if ':' !in s then
      match LookupReduction(Strip(s))
      case Ok(f) => Ok(([("A", f)], false))
      case Err(e) => Err(e)
    else
      match ParsePairs(Words(s))
      case Ok(ps) => Ok((ps, showOp))
      case Err(e) => Err(e)
  }

  /** The loop of the dataset constructor over `reductions.split()`. */
  method ParseReductions(s: string, showOp: bool) returns (r: Result<(seq<(string, Reduction)>, bool)>)
    ensures r == Reductions(s, showOp)
  {
    if ':' !in s {
      var f := LookupReduction(Strip(s));
      if f.Err? {
        return Err(f.error);
      }
      return Ok(([("A", f.value)], false));
    }
    var words := Words(s);
    var pairs: seq<(string, Reduction)> := [];
    assert words[0..] == words;
    assert ParsePairsFrom([], words) == ParsePairs(words) by {
      if ParsePairs(words).Ok? { assert [] + ParsePairs(words).value == ParsePairs(words).value; }
    }
    for i := 0 to |words|
      invariant ParsePairs(words) == ParsePairsFrom(pairs, words[i..])
    {
      var p := ParsePair(words[i]);
      if p.Err? {
        assert words[i..][0] == words[i];
        return Err(p.error);
      }
      assert words[i..][1..] == words[i + 1..];
      var rest := ParsePairs(words[i + 1..]);
      if rest.Ok? {
        assert ParsePairs(words[i..]) == Ok([p.value] + rest.value);
        assert pairs + ([p.value] + rest.value) == (pairs + [p.value]) + rest.value;
      }
      pairs := pairs + [p.value];
    }
    assert words[|words|..] == [] && pairs + [] == pairs;
    r := Ok((pairs, showOp));
  }

  /** The parse of `rest` appended to pairs already parsed. */
  function ParsePairsFrom(done: seq<(string, Reduction)>, rest: seq<string>): Result<seq<(string, Reduction)>>
  {
    match ParsePairs(rest)
    case Ok(ps) => Ok(done + ps)
    case Err(e) => Err(e)
  }

  /** The text `c:key c:key ...` of a list of pairs. */
  function PairText(p: (string, Reduction)): string
  {
    p.0 + [':'] + ReductionName(p.1)
  }

  function PairsText(pairs: seq<(string, Reduction)>): string
  {
    Join(PairTexts(pairs), ' ')
  }

  /** The `c:key` word of each pair, in order. */
  function PairTexts(pairs: seq<(string, Reduction)>): (r: seq<string>)
    ensures |r| == |pairs| && forall i :: 0 <= i < |pairs| ==> r[i] == PairText(pairs[i])
  {
    if pairs == [] then [] else [PairText(pairs[0])] + PairTexts(pairs[1..])
  }

  predicate GoodLetter(c: string)
  {
    ':' !in c && NoSpaces(c)
  }

  lemma NamesClean(f: Reduction)
    ensures ':' !in ReductionName(f) && NoSpaces(ReductionName(f)) && ReductionName(f) != []
  {
  }

  lemma PairRoundTrip(p: (string, Reduction))
    requires GoodLetter(p.0)
    ensures ParsePair(PairText(p)) == Ok(p)
    ensures PairText(p) != [] && NoSpaces(PairText(p)) && ':' in PairText(p)
  {
    NamesClean(p.1);
    SplitAtSep(p.0, ReductionName(p.1), ':');
    SplitNoSep(ReductionName(p.1), ':');
    var t := PairText(p);
    assert t[|p.0|] == ':';
    forall i | 0 <= i < |t| ensures !IsSpace(t[i]) {
      if i < |p.0| { assert t[i] == p.0[i]; }
      else if i > |p.0| { assert t[i] == ReductionName(p.1)[i - |p.0| - 1]; }
    }
  }

  lemma {:induction false} ParsePairsOfTexts(pairs: seq<(string, Reduction)>)
    requires forall i :: 0 <= i < |pairs| ==> GoodLetter(pairs[i].0)
    ensures ParsePairs(PairTexts(pairs)) == Ok(pairs)
  {
    if pairs != [] {
      PairRoundTrip(pairs[0]);
      ParsePairsOfTexts(pairs[1..]);
      assert PairTexts(pairs)[1..] == PairTexts(pairs[1..]);
      assert [pairs[0]] + pairs[1..] == pairs;
    }
  }

  /** Writing pairs as `c:key c:key ...` and parsing the text gives the pairs back, with
      `show_op` as configured. */
  lemma ReductionsRoundTrip(pairs: seq<(string, Reduction)>, showOp: bool)
    requires |pairs| >= 1 && forall i :: 0 <= i < |pairs| ==> GoodLetter(pairs[i].0)
    ensures Reductions(PairsText(pairs), showOp) == Ok((pairs, showOp))
  {
    var texts := PairTexts(pairs);
    forall i | 0 <= i < |texts| ensures texts[i] != [] && NoSpaces(texts[i]) && ':' in texts[i] {
      PairRoundTrip(pairs[i]);
    }
    WordsJoin(texts);
    ParsePairsOfTexts(pairs);
    JoinContains(texts, ':');
  }

  lemma {:induction false} JoinContains(ws: seq<string>, c: char)
    requires |ws| >= 1 && c in ws[0]
    ensures c in Join(ws, ' ')
  {
    if |ws| > 1 {
      var i :| 0 <= i < |ws[0]| && ws[0][i] == c;
      assert Join(ws, ' ')[i] == c;
    }
  }

  // ---------------------------------------------------------------- arithmetic actions string

  /** `arithmetic_actions_dict`; an unknown key raises `KeyError`. */
  function LookupAction(key: string): (r: Result<ArithOp>)
    ensures r.Ok? <==> key in {"+", "-", "*", "/", "max", "min", "+1", "-1"}
  {
    if key == "+" then Ok(Plus)
    else if key == "-" then Ok(Minus)
    else if key == "*" then Ok(Times)
    else if key == "/" then Ok(Divide)
    else if key == "max" then Ok(Maximum)
    else if key == "min" then Ok(Minimum)
    else if key == "+1" then Ok(PlusOne)
    else if key == "-1" then Ok(MinusOne)
    else Err("KeyError")
  }

  /** The `(key, function)` pairs of the words, left to right; the first unknown key's error. */
  function ActionPairs(words: seq<string>): (r: Result<seq<(string, ArithOp)>>)
    ensures r.Ok? ==> |r.value| == |words| && forall i :: 0 <= i < |words| ==> r.value[i].0 == words[i]
  {
    if words == [] then Ok([])
    else
      match LookupAction(words[0])
      case Err(e) => Err(e)
      case Ok(f) =>
        match ActionPairs(words[1..])
        case Err(e) => Err(e)
        case Ok(ps) => Ok([(words[0], f)] + ps)
  }

  lemma {:induction false} ActionPairsOk(words: seq<string>)
    ensures ActionPairs(words).Ok? <==> forall i :: 0 <= i < |words| ==> LookupAction(words[i]).Ok?
  {
    if words != [] {
      ActionPairsOk(words[1..]);
      assert forall i :: 1 <= i < |words| ==> words[i] == words[1..][i - 1];
    }
  }

  /** The constructor's loop over `arithmetic_actions.split()`. */
  method ParseActions(s: string) returns (r: Result<seq<(string, ArithOp)>>)
    ensures r == ActionPairs(Words(s))
  {
    r := LookupActions(Words(s));
  }

  /** One `(key, arithmetic_actions_dict[key])` per word, stopping at the first unknown key. */
  method LookupActions(words: seq<string>) returns (r: Result<seq<(string, ArithOp)>>)
    ensures r == ActionPairs(words)
  {
    var pairs: seq<(string, ArithOp)> := [];
    assert words[0..] == words;
    assert ActionPairsFrom([], words) == ActionPairs(words) by {
      if ActionPairs(words).Ok? { assert [] + ActionPairs(words).value == ActionPairs(words).value; }
    }
    for i := 0 to |words|
      invariant ActionPairs(words) == ActionPairsFrom(pairs, words[i..])
    {
      var f := LookupAction(words[i]);
      if f.Err? {
        return Err(f.error);
      }
      assert words[i..][1..] == words[i + 1..];
      ActionPairsStep(pairs, words[i..]);
      pairs := pairs + [(words[i], f.value)];
    }
    assert words[|words|..] == [] && pairs + [] == pairs;
    r := Ok(pairs);
  }

  lemma ActionPairsStep(done: seq<(string, ArithOp)>, rest: seq<string>)
    requires rest != [] && LookupAction(rest[0]).Ok?
    ensures ActionPairsFrom(done, rest) == ActionPairsFrom(done + [(rest[0], LookupAction(rest[0]).value)], rest[1..])
  {
    var p := (rest[0], LookupAction(rest[0]).value);
    var tail := ActionPairs(rest[1..]);
    if tail.Ok? {
      assert done + ([p] + tail.value) == (done + [p]) + tail.value;
    }
  }

  function ActionPairsFrom(done: seq<(string, ArithOp)>, rest: seq<string>): Result<seq<(string, ArithOp)>>
  {
    match ActionPairs(rest)
    case Ok(ps) => Ok(done + ps)
    case Err(e) => Err(e)
  }

  /** The dictionary built from `arithmetic_actions` holds exactly the keys written in it. */
  lemma ActionKeys(s: string)
    requires ActionPairs(Words(s)).Ok?
    ensures forall k :: k in Dict(ActionPairs(Words(s)).value) <==> k in Words(s)
  {
  }

  // ---------------------------------------------------------------- dataset wiring

  /** The containers of the dataset constructor: digits drawn as themselves, the i-th
      sorted reduction drawn as `i + 10`. Returns `(symbol_reps, digit_reps)`. */
  function Reps(n: nat, base: nat): (Container, Container)
  {
    (SymbolReps(n), DigitReps(base))
  }

  /** As written, the constructor hands `digit_reps` to `make_dataset` in the position of
      `symbol_reps` and the other way round. */
  function RepsAsWritten(n: nat, base: nat): (Container, Container)
  {
    (DigitReps(base), SymbolReps(n))
  }

  /** With the containers swapped, the operator cell of every example holds a digit, which
      the operator classifier reads as nothing, and every digit cell holds an operator,
      which the digit classifier reads as nothing. */
  lemma SwappedRepsUnreadable(e: Example, d: Draw, size: nat, n: nat, base: nat, functions: map<int, Reduction>,
                              opLoc: Option<int>, oneHot: bool, largest: nat)
    requires base <= 10
    requires ExampleOf(e, d, size, RepsAsWritten(n, base).0, RepsAsWritten(n, base).1, functions, opLoc, true, oneHot, largest)
    ensures var cells := CellsFor(d, opLoc, true);
      OpClass(e.grid[cells[0]] as real) == -1.0
      && forall j :: 1 <= j < |cells| ==> DigitClass(e.grid[cells[j]] as real) == -1.0
  {
    var cells := CellsFor(d, opLoc, true);
    var xs := Picked(RepsAsWritten(n, base).1, d.digitPicks, true);
    forall j | 1 <= j < |cells| ensures DigitClass(e.grid[cells[j]] as real) == -1.0 {
      assert e.grid[cells[(j - 1) + 1]] == xs[j - 1];
    }
  }

  /** With the containers swapped, a digit picked for the operator slot keys no reduction
      once it reaches the number of reductions: with two reductions ("A:sum M:prod") and
      base 10, drawing the digit 5 there raises `KeyError`. */
  lemma SwappedRepsKeyError(pairs: seq<(string, Reduction)>, base: nat, d: Draw, oneHot: bool, largest: nat)
    requires var c := RepsAsWritten(|SortedKeys(pairs)|, base); PicksIn(d, c.0, c.1)
    requires d.symbolPick >= |pairs|
    ensures var c := RepsAsWritten(|SortedKeys(pairs)|, base);
      ExampleTarget(d, c.0, c.1, IndexTable(pairs), oneHot, largest) == Err("KeyError")
  {
  }

  /** With the containers in their intended places the operator cell reads as the
      operator's code, every digit cell reads as its digit, and the operator's label
      always keys a reduction (the table's keys are the codes `0..n-1`, as `IndexTable`'s are). */
  lemma RepsReadable(e: Example, d: Draw, size: nat, n: nat, functions: map<int, Reduction>, base: nat,
                     opLoc: Option<int>, oneHot: bool, largest: nat)
    requires base <= 10
    requires forall i :: i in functions <==> 0 <= i < n
    requires var c := Reps(n, base); ExampleOf(e, d, size, c.0, c.1, functions, opLoc, true, oneHot, largest)
    ensures var cells := CellsFor(d, opLoc, true);
      OpClass(e.grid[cells[0]] as real) == (d.symbolPick + 10) as real
      && (forall j :: 1 <= j < |cells| ==> DigitClass(e.grid[cells[j]] as real) == d.digitPicks[j - 1] as real)
      && d.symbolPick in functions
  {
    var cells := CellsFor(d, opLoc, true);
    var xs := Picked(Reps(n, base).1, d.digitPicks, true);
    forall j | 1 <= j < |cells| ensures DigitClass(e.grid[cells[j]] as real) == d.digitPicks[j - 1] as real {
      assert e.grid[cells[(j - 1) + 1]] == xs[j - 1];
    }
  }

  // ---------------------------------------------------------------- actions

  const SimpleBaseNames: seq<string> := [">", "<", "v", "^", "classify_digit", "classify_op"]

  /** As written, `build_step` always unpacks the seventh activation as `update_salience`
      and the rest as arithmetic actions, whether or not salience is an action;
      fewer than seven activations do not unpack. */
  function ArithActsAsWritten(a: seq<real>): (r: Result<seq<real>>)
    ensures |a| < 7 <==> r == Err("ValueError")
    ensures r.Ok? ==> |r.value| + 7 == |a| && forall j :: 0 <= j < |r.value| ==> r.value[j] == a[j + 7]
  {
    if |a| < 7 then Err("ValueError") else Ok(a[7..])
  }

  /** `zip` stops at the shorter of the sorted keys' functions and the activations. */
  function UpdateAccZipped(ops: seq<ArithOp>, acts: seq<real>, acc: real, digit: real): Option<real>
  {
    var m := if |ops| <= |acts| then |ops| else |acts|;
    UpdateAcc(ops[..m], acts[..m], acc, digit)
  }

  /** As written, without the salience action every arithmetic action is driven by the
      activation of the action named after it: choosing the k-th key (k >= 1) applies the
      (k-1)-th key's function. With keys "+" and "+1", choosing "+1" adds the digit. */
  lemma ShiftedActionsAsWritten(acc: real, digit: real)
    ensures var names := ActionNames(SimpleBaseNames, false, ["+", "+1"]);
      names[7] == "+1"
      && UpdateAccZipped([Plus, PlusOne], ArithActsAsWritten(OneHot(|names|, 7)).value, acc, digit)
         == Some(Clip(acc + digit, -1000.0, 1000.0))
  {
    var names := ActionNames(SimpleBaseNames, false, ["+", "+1"]);
    assert |names| == 8;
    var acts := ArithActsAsWritten(OneHot(8, 7)).value;
    assert acts == OneHot(1, 0);
    assert [Plus, PlusOne][..1] == [Plus] && acts[..1] == acts;
    assert UpdateAccZipped([Plus, PlusOne], acts, acc, digit) == UpdateAcc([Plus], OneHot(1, 0), acc, digit);
    AccOneHot([Plus], 0, acc, digit);
    assert Eval(Plus, acc, digit) == Some(acc + digit);
  }

  // ---------------------------------------------------------------- salience window

  /** `pad_offset = floor(salience_shape / 2)` along one axis. */
  function PadOffset(s: nat): nat
  {
    s / 2
  }

  /** `target_height` / `target_width`: the input padded by the offset on both sides. */
  function PaddedSize(n: nat, s: nat): (p: nat)
    ensures p == n + 2 * PadOffset(s)
  {
    n + 2 * PadOffset(s)
  }

  /** The top-left corner of the salience window along one axis:
      `fovea - ceil(s/2) + 1 + pad_offset`. */
  function WindowStart(f: int, s: nat): int
  {
    f - (s + 1) / 2 + 1 + PadOffset(s)
  }

  /** For a fovea on the grid, the salience window lies inside the padded input and
      covers the fovea's own cell (at `fovea + pad_offset` in the padded input). */
  lemma WindowFits(f: int, n: nat, s: nat)
    requires 0 <= f < n && s >= 1
    ensures 0 <= WindowStart(f, s) && WindowStart(f, s) + s <= PaddedSize(n, s)
    ensures WindowStart(f, s) <= f + PadOffset(s) < WindowStart(f, s) + s
  {
  }
}

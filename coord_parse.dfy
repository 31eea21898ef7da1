// The load-pattern argument of the coordinator (coordinator/coordinator.go,
// runExp): a colon-separated list whose first token names the pattern and
// whose other tokens are integers (strconv.Atoi) or, for the sampling rate,
// a float (strconv.ParseFloat, a parameter here).

module CoordParse {
  import opened Common
  import opened Bytes
  import opened GoProto

  const COLON: char := ':'

  const INITIAL_SAMPLING_RATE: real := 20.0
  const INITIAL_SAMPLES: int := 10000

  /** What ends an experiment early: an agent exchange that failed, a
      condition the coordinator reports with fmt.Errorf, or a run-time panic. */
  datatype CoordErr =
    | AgentError(err: GoErr)
    | ConnectionsClosed
    | NoAgents
    | BadLoad | BadSamples | BadSamplingRate | BadStartLoad | BadEndLoad | BadStepLoad
    | UnknownPattern
    | MaxTimeReached
    | MaxRetries
    | Panicked

  // ---------------------------------------------------------------------
  // strings.Split and its inverse

  function IndexOf(s: string, c: char): (i: nat)
    requires c in s
    ensures i < |s| && s[i] == c && c !in s[..i]
  {
    if s[0] == c then 0 else 1 + IndexOf(s[1..], c)
  }

  /** strings.Split(s, sep): the pieces between separators, at least one. */
  function Split(s: string, sep: char): (r: seq<string>)
    ensures |r| >= 1
    ensures forall i :: 0 <= i < |r| ==> sep !in r[i]
    decreases |s|
  {
    if sep !in s then [s]
    else
      var i := IndexOf(s, sep);
      [s[..i]] + Split(s[i + 1..], sep)
  }

  /** strings.Join(parts, sep). */
  function Join(parts: seq<string>, sep: char): string
  {
    if parts == [] then ""
    else if |parts| == 1 then parts[0]
    else parts[0] + [sep] + Join(parts[1..], sep)
  }

  lemma {:induction false} JoinSplit(s: string, sep: char)
    ensures Join(Split(s, sep), sep) == s
    decreases |s|
  {
    if sep in s {
      var i := IndexOf(s, sep);
      JoinSplit(s[i + 1..], sep);
      assert Split(s, sep)[1..] == Split(s[i + 1..], sep);
      assert s == s[..i] + [sep] + s[i + 1..];
    }
  }

  /** Splitting a join of separator-free pieces gives the pieces back. */
  lemma {:induction false} SplitJoin(parts: seq<string>, sep: char)
    requires |parts| >= 1
    requires forall i :: 0 <= i < |parts| ==> sep !in parts[i]
    ensures Split(Join(parts, sep), sep) == parts
  {
    if |parts| > 1 {
      var s := Join(parts, sep);
      var rest := Join(parts[1..], sep);
      assert s == parts[0] + [sep] + rest;
      assert sep in s by { assert s[|parts[0]|] == sep; }
      var i := IndexOf(s, sep);
      assert s[..|parts[0]|] == parts[0];
      assert i == |parts[0]|;
      assert s[..i] == parts[0];
      assert s[i + 1..] == rest;
      SplitJoin(parts[1..], sep);
    }
  }

  // ---------------------------------------------------------------------
  // strconv.Atoi and strconv.Itoa

  predicate IsDigitChar(c: char) { '0' <= c <= '9' }

  predicate AllDigits(s: string)
  {
    forall i :: 0 <= i < |s| ==> IsDigitChar(s[i])
  }

  function DigitValue(c: char): nat
    requires IsDigitChar(c)
  {
    (c - '0') as nat
  }

  function DigitChar(d: nat): (c: char)
    requires d < 10
    ensures IsDigitChar(c) && DigitValue(c) == d
  {
    '0' + d as char
  }

  /** The value of a run of decimal digits, read most significant first. */
  function DigitsVal(s: string): nat
    requires AllDigits(s)
  {
    if s == [] then 0 else DigitsVal(s[..|s| - 1]) * 10 + DigitValue(s[|s| - 1])
  }

  /** strconv.Atoi on a 64-bit platform: an optional sign, at least one
      digit and nothing else, within the range of int64. */
  function GoAtoi(s: string): (r: Option<int>)
    ensures r.Some? ==> -TWO_63 <= r.value < TWO_63
  {
    var signed := |s| > 0 && (s[0] == '+' || s[0] == '-');
    var digits := if signed then s[1..] else s;
    if digits == [] || !AllDigits(digits) then None
    else
      var v := if signed && s[0] == '-' then -(DigitsVal(digits) as int) else DigitsVal(digits);
      if -TWO_63 <= v < TWO_63 then Some(v) else None
  }

  /** The decimal digits of n, without leading zeros. */
  function NatString(n: nat): (s: string)
    ensures s != [] && AllDigits(s)
    ensures DigitsVal(s) == n
  {
    if n < 10 then [DigitChar(n)]
    else
      var s := NatString(n / 10) + [DigitChar(n % 10)];
      assert s[..|s| - 1] == NatString(n / 10);
      s
  }

  /** strconv.Itoa. */
  function Itoa(x: int): string
  {
    if x < 0 then "-" + NatString(-x) else NatString(x)
  }

  /** Atoi reads back what Itoa wrote, for every int64. */
  lemma AtoiItoa(x: int)
    requires -TWO_63 <= x < TWO_63
    ensures GoAtoi(Itoa(x)) == Some(x)
  {
    if x < 0 {
      assert Itoa(x)[1..] == NatString(-x);
    }
  }

  /** Itoa never writes a colon, so rendered integers survive Split. */
  lemma ItoaHasNoColon(x: int)
    ensures COLON !in Itoa(x)
  {
    var s := Itoa(x);
    assert forall i :: 0 <= i < |s| ==> s[i] == '-' || IsDigitChar(s[i]);
  }

  // ---------------------------------------------------------------------
  // runExp's reading of the pattern

  /** The experiment a pattern asks for. */
  datatype Plan =
    | FixedPlan(qual: bool, load: int)
    | StepPlan(qual: bool, start: int, end: int, step: int)
    | Failed(err: CoordErr)

  /** The plan, and c.samples and c.samplingRate as runExp leaves them when
      it has read the pattern (or stopped reading it). */
  datatype Parsed = Parsed(plan: Plan, samples: int, rate: real)

  /** The optional tokens from index i on: samples, then the sampling rate. */
  function ParseOptions(args: seq<string>, i: nat, parseFloat: string -> Option<real>, plan: Plan): (p: Parsed)
    ensures p.plan == plan || p.plan == Failed(BadSamples) || p.plan == Failed(BadSamplingRate)
  {
    if |args| > i && GoAtoi(args[i]).None? then Parsed(Failed(BadSamples), INITIAL_SAMPLES, INITIAL_SAMPLING_RATE)
    else
      var samples := if |args| > i then GoAtoi(args[i]).value else INITIAL_SAMPLES;
      if |args| > i + 1 && parseFloat(args[i + 1]).None? then Parsed(Failed(BadSamplingRate), samples, INITIAL_SAMPLING_RATE)
      else
        var rate := if |args| > i + 1 then parseFloat(args[i + 1]).value else INITIAL_SAMPLING_RATE;
        Parsed(plan, samples, rate)
  }

  /** runExp's reading of the split pattern; indexing past the last token
      panics. */
  function ParsePattern(args: seq<string>, parseFloat: string -> Option<real>): (p: Parsed)
    requires |args| >= 1
    ensures args[0] !in {"fixed", "fixedQual", "fixedSteady", "step", "stepQual"} <==>
            p.plan == Failed(UnknownPattern)
  {
    var initial := Parsed(Failed(UnknownPattern), INITIAL_SAMPLES, INITIAL_SAMPLING_RATE);
    if args[0] == "fixed" || args[0] == "fixedQual" || args[0] == "fixedSteady" then
      if |args| < 2 then initial.(plan := Failed(Panicked))
      else if GoAtoi(args[1]).None? then initial.(plan := Failed(BadLoad))
      else ParseOptions(args, 2, parseFloat, FixedPlan(args[0] != "fixed", GoAtoi(args[1]).value))
    else if args[0] == "step" || args[0] == "stepQual" then
      if |args| < 2 then initial.(plan := Failed(Panicked))
      else if GoAtoi(args[1]).None? then initial.(plan := Failed(BadStartLoad))
      else if |args| < 3 then initial.(plan := Failed(Panicked))
      else if GoAtoi(args[2]).None? then initial.(plan := Failed(BadEndLoad))
      else if |args| < 4 then initial.(plan := Failed(Panicked))
      else if GoAtoi(args[3]).None? then initial.(plan := Failed(BadStepLoad))
      else ParseOptions(args, 4, parseFloat,
                        StepPlan(args[0] == "stepQual", GoAtoi(args[1]).value, GoAtoi(args[2]).value, GoAtoi(args[3]).value))
    else initial
  }

  /** "fixed:<load>:<samples>" reads back as that load and sample count, with
      the initial sampling rate. */
  lemma FixedPatternParses(load: int, samples: int, parseFloat: string -> Option<real>)
    requires -TWO_63 <= load < TWO_63 && -TWO_63 <= samples < TWO_63
    ensures ParsePattern(Split(Join(["fixed", Itoa(load), Itoa(samples)], COLON), COLON), parseFloat) ==
            Parsed(FixedPlan(false, load), samples, INITIAL_SAMPLING_RATE)
  {
    var parts := ["fixed", Itoa(load), Itoa(samples)];
    ItoaHasNoColon(load);
    ItoaHasNoColon(samples);
    SplitJoin(parts, COLON);
    AtoiItoa(load);
    AtoiItoa(samples);
    assert ParseOptions(parts, 2, parseFloat, FixedPlan(false, load)) ==
           Parsed(FixedPlan(false, load), samples, INITIAL_SAMPLING_RATE);
    assert ParsePattern(parts, parseFloat) == ParseOptions(parts, 2, parseFloat, FixedPlan(false, load));
  }

  /** "step:<start>:<end>:<step>" reads back as those three loads. */
  lemma StepPatternParses(start: int, end: int, step: int, parseFloat: string -> Option<real>)
    requires -TWO_63 <= start < TWO_63 && -TWO_63 <= end < TWO_63 && -TWO_63 <= step < TWO_63
    ensures ParsePattern(Split(Join(["step", Itoa(start), Itoa(end), Itoa(step)], COLON), COLON), parseFloat) ==
            Parsed(StepPlan(false, start, end, step), INITIAL_SAMPLES, INITIAL_SAMPLING_RATE)
  {
    var parts := ["step", Itoa(start), Itoa(end), Itoa(step)];
    StepPartsSplit(start, end, step);
    AtoiItoa(start);
    AtoiItoa(end);
    AtoiItoa(step);
    var plan := StepPlan(false, start, end, step);
    assert ParseOptions(parts, 4, parseFloat, plan) == Parsed(plan, INITIAL_SAMPLES, INITIAL_SAMPLING_RATE);
    assert ParsePattern(parts, parseFloat) == ParseOptions(parts, 4, parseFloat, plan);
  }

  lemma StepPartsSplit(start: int, end: int, step: int)
    requires -TWO_63 <= start < TWO_63 && -TWO_63 <= end < TWO_63 && -TWO_63 <= step < TWO_63
    ensures Split(Join(["step", Itoa(start), Itoa(end), Itoa(step)], COLON), COLON) ==
            ["step", Itoa(start), Itoa(end), Itoa(step)]
  {
    ItoaHasNoColon(start);
    ItoaHasNoColon(end);
    ItoaHasNoColon(step);
    SplitJoin(["step", Itoa(start), Itoa(end), Itoa(step)], COLON);
  }
}

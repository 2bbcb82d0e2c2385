/**
 * What `transform` promises, proved about the functions of module Redshift
 * that `Redshift.Transform` is verified against: the order of its checks,
 * the output shape, mask handling, which columns are copied and which are
 * rescaled, and the write-back into the caller's rules.
 */
module RedshiftProperties {
  import opened Wrappers
  import opened Shapes
  import opened Arrays
  import opened Redshift

  // ---------------------------------------------------------------------
  // The rule loop

  /** The names the rules declare, in order (what line 106 appends to `dtype_in`). */
  function Names(rules: seq<Rule>): seq<string>
  {
    if rules == [] then []
    else Names(rules[..|rules| - 1]) + [if rules[|rules| - 1].name.Str? then rules[|rules| - 1].name.s else ""]
  }

  /** Some array among the inputs is a masked array. */
  ghost predicate InputsMasked(dataIn: InputArg, rules: seq<Rule>)
  {
    || (dataIn.Input? && dataIn.records.masks.Some?)
    || exists j :: 0 <= j < |rules| && rules[j].arrayIn.Array? && rules[j].arrayIn.a.mask.Some?
  }

  /** A successful loop only passes on prefixes of the rule list. */
  lemma {:induction false} ScanPrefix(rules: seq<Rule>, k: nat, dataIn: InputArg, dataOut: OutputArg)
    requires k <= |rules| && ScanRules(rules, dataIn, dataOut).Success?
    ensures ScanRules(rules[..k], dataIn, dataOut).Success?
    decreases |rules|
  {
    if k < |rules| {
      assert rules[..|rules| - 1][..k] == rules[..k];
      ScanPrefix(rules[..|rules| - 1], k, dataIn, dataOut);
    } else {
      assert rules[..k] == rules;
    }
  }

  /** A failing loop fails at one rule, after every earlier rule passed. */
  lemma {:induction false} ScanFailure(rules: seq<Rule>, dataIn: InputArg, dataOut: OutputArg)
    requires ScanRules(rules, dataIn, dataOut).Failure?
    ensures var e := ScanRules(rules, dataIn, dataOut).error;
            && e.BadRule? && e.index < |rules|
            && ScanRules(rules[..e.index], dataIn, dataOut).Success?
            && CheckRule(e.index, rules[e.index], dataIn, dataOut, ScanRules(rules[..e.index], dataIn, dataOut).value) == Failure(e)
    decreases |rules|
  {
    var n := |rules|;
    var prefix := rules[..n - 1];
    if ScanRules(prefix, dataIn, dataOut).Failure? {
      ScanFailure(prefix, dataIn, dataOut);
      var i := ScanRules(prefix, dataIn, dataOut).error.index;
      assert prefix[..i] == rules[..i];
    } else {
      assert rules[..n - 1] == prefix;
    }
  }

  /** What a successful loop establishes about every rule and about its final state. */
  lemma {:induction false} ScanFacts(rules: seq<Rule>, dataIn: InputArg, dataOut: OutputArg)
    requires !dataIn.InputNotArray? && ScanRules(rules, dataIn, dataOut).Success?
    ensures var st := ScanRules(rules, dataIn, dataOut).value;
            && (forall j :: 0 <= j < |rules| ==>
                  && rules[j].name.Str? && rules[j].exponent.Float?
                  && (dataOut.Output? ==> rules[j].name.s in dataOut.table.fields))
            && (dataIn.Input? ==>
                  && st == InitialScan(dataIn)
                  && forall j :: 0 <= j < |rules| ==> rules[j].arrayIn.NoArray? && rules[j].name.s in dataIn.records.fields)
            && (dataIn.NoInput? ==>
                  && (st.shapeIn.None? <==> rules == [])
                  && (forall j :: 0 <= j < |rules| ==> rules[j].arrayIn.Array? && st.shapeIn == Some(rules[j].arrayIn.a.shape))
                  && st.dtype == Names(rules)
                  && (st.maskedIn <==> InputsMasked(dataIn, rules)))
    decreases |rules|
  {
    if rules == [] {
      return;
    }
    var n := |rules|;
    var prefix := rules[..n - 1];
    assert ScanRules(prefix, dataIn, dataOut).Success?;
    ScanFacts(prefix, dataIn, dataOut);
    var prev := ScanRules(prefix, dataIn, dataOut).value;
    var st := ScanRules(rules, dataIn, dataOut).value;
    assert CheckRule(n - 1, rules[n - 1], dataIn, dataOut, prev) == Success(st);
    assert forall j :: 0 <= j < n - 1 ==> prefix[j] == rules[j];
    if dataIn.NoInput? {
      assert InputsMasked(dataIn, rules) <==> InputsMasked(dataIn, prefix) || rules[n - 1].arrayIn.a.mask.Some? by {
        if InputsMasked(dataIn, prefix) {
          var j :| 0 <= j < |prefix| && prefix[j].arrayIn.Array? && prefix[j].arrayIn.a.mask.Some?;
          assert rules[j] == prefix[j];
        }
      }
    }
  }

  /** Independent of the order of the checks: every check rule `i` fails. */
  ghost function Violations(rule: Rule, dataIn: InputArg, dataOut: OutputArg, st: Scan): set<Fault>
  {
    (if rule.name.NotStr? then {InvalidName} else {})
    + (if rule.exponent.NotConvertible? then {InvalidExponent} else {})
    + (if rule.name.Str? && dataIn.Input? && rule.name.s !in dataIn.records.fields then {MissingInField} else {})
    + (if rule.name.Str? && dataOut.Output? && rule.name.s !in dataOut.table.fields then {MissingOutField} else {})
    + (if !rule.arrayIn.NoArray? && dataIn.Input? then {SourceConflict} else {})
    + (if rule.arrayIn.NotAnArray? then {InvalidArrayIn} else {})
    + (if rule.arrayIn.Array? && st.shapeIn.Some? && st.shapeIn.value != rule.arrayIn.a.shape then {ShapeMismatch} else {})
    + (if rule.arrayIn.NoArray? && !dataIn.Input? then {MissingArrayIn} else {})
  }

  /** Position of each check in lines 82-111. */
  function Rank(f: Fault): nat
  {
    match f
    case InvalidName => 0
    case InvalidExponent => 1
    case MissingInField => 2
    case MissingOutField => 3
    case SourceConflict => 4
    case InvalidArrayIn => 5
    case ShapeMismatch => 6
    case MissingArrayIn => 7
  }

  /** A rule is accepted iff it violates nothing, and otherwise the earliest violated check is reported. */
  lemma FirstViolationReported(i: nat, rule: Rule, dataIn: InputArg, dataOut: OutputArg, st: Scan)
    requires !dataIn.InputNotArray?
    ensures CheckRule(i, rule, dataIn, dataOut, st).Success? <==> Violations(rule, dataIn, dataOut, st) == {}
    ensures CheckRule(i, rule, dataIn, dataOut, st).Failure? ==>
              var e := CheckRule(i, rule, dataIn, dataOut, st).error;
              && e.BadRule? && e.index == i
              && e.fault in Violations(rule, dataIn, dataOut, st)
              && forall g :: g in Violations(rule, dataIn, dataOut, st) ==> Rank(e.fault) <= Rank(g)
  {
    var v := Violations(rule, dataIn, dataOut, st);
    if rule.name.NotStr? {
      assert InvalidName in v;
    } else if rule.exponent.NotConvertible? {
      assert InvalidExponent in v;
    } else if dataIn.Input? && rule.name.s !in dataIn.records.fields {
      assert MissingInField in v;
    } else if dataOut.Output? && rule.name.s !in dataOut.table.fields {
      assert MissingOutField in v;
    } else if !rule.arrayIn.NoArray? && dataIn.Input? {
      assert SourceConflict in v;
    } else if rule.arrayIn.NotAnArray? {
      assert InvalidArrayIn in v;
    } else if rule.arrayIn.Array? && st.shapeIn.Some? && st.shapeIn.value != rule.arrayIn.a.shape {
      assert ShapeMismatch in v;
    } else if rule.arrayIn.NoArray? && !dataIn.Input? {
      assert MissingArrayIn in v;
    } else {
      assert v == {};
    }
  }

  // ---------------------------------------------------------------------
  // Order of the errors

  /** Lines 57-70 run before any rule is looked at: their errors do not depend on the rules, which stay untouched. */
  lemma ArgumentErrorsFirst(zIn: ZArg, zOut: ZArg, dataIn: InputArg, dataOut: OutputArg, rules: seq<Rule>)
    requires zIn.Valid() && zOut.Valid()
    requires RedshiftFactor(zIn, zOut).Failure? || dataIn.InputNotArray? || dataOut.OutputNotArray?
    ensures Validate(zIn, zOut, dataIn, dataOut, rules) == Validate(zIn, zOut, dataIn, dataOut, [])
    ensures Validate(zIn, zOut, dataIn, dataOut, rules).Failure?
    ensures Validate(zIn, zOut, dataIn, dataOut, rules).error.BeforeRules()
    ensures RulesAfter(rules, dataIn, Validate(zIn, zOut, dataIn, dataOut, rules)) == rules
  {
  }

  /** Errors other than a rule's are never `BadRule`; a rule's error comes from the loop. */
  lemma ValidateErrors(zIn: ZArg, zOut: ZArg, dataIn: InputArg, dataOut: OutputArg, rules: seq<Rule>)
    requires zIn.Valid() && zOut.Valid()
    ensures Validate(zIn, zOut, dataIn, dataOut, rules).Failure? && !Validate(zIn, zOut, dataIn, dataOut, rules).error.BeforeRules() ==>
              RedshiftFactor(zIn, zOut).Success? && !dataIn.InputNotArray? && !dataOut.OutputNotArray?
    ensures Validate(zIn, zOut, dataIn, dataOut, rules).Failure? && Validate(zIn, zOut, dataIn, dataOut, rules).error.BeforeRules() ==>
              Validate(zIn, zOut, dataIn, dataOut, rules) == Validate(zIn, zOut, dataIn, dataOut, [])
  {
    var v := Validate(zIn, zOut, dataIn, dataOut, rules);
    if RedshiftFactor(zIn, zOut).Success? && !dataIn.InputNotArray? && !dataOut.OutputNotArray? {
      var factor := RedshiftFactor(zIn, zOut).value;
      match ScanRules(rules, dataIn, dataOut)
      case Failure(e) =>
        ScanFailure(rules, dataIn, dataOut);
        assert v == Failure(e) && e.BadRule?;
      case Success(st) =>
        assert v == Allocate(st, factor, dataOut);
    }
  }

  /**
   * A negative redshift is rejected (lines 59 and 63), and only a negative
   * redshift raises those errors; an accepted call has no negative redshift.
   */
  lemma NegativeRedshiftRejected(zIn: ZArg, zOut: ZArg, dataIn: InputArg, dataOut: OutputArg, rules: seq<Rule>)
    requires zIn.Valid() && zOut.Valid()
    ensures Validate(zIn, zOut, dataIn, dataOut, rules) == Failure(NegativeZIn) <==>
              !zIn.NotANumber? && AnyNegative(zIn.AsArray().data)
    ensures Validate(zIn, zOut, dataIn, dataOut, rules) == Failure(NegativeZOut) <==>
              && !zIn.NotANumber? && !AnyNegative(zIn.AsArray().data)
              && !zOut.NotANumber? && AnyNegative(zOut.AsArray().data)
    ensures Validate(zIn, zOut, dataIn, dataOut, rules).Success? ==>
              && !zIn.NotANumber? && !zOut.NotANumber?
              && (forall k :: 0 <= k < |zIn.AsArray().data| ==> zIn.AsArray().data[k] >= 0.0)
              && (forall k :: 0 <= k < |zOut.AsArray().data| ==> zOut.AsArray().data[k] >= 0.0)
  {
    ValidateErrors(zIn, zOut, dataIn, dataOut, rules);
  }

  /** A rule error names the first rule that fails, with the first check it fails; all earlier rules passed. */
  lemma RuleErrorIsFirstFailure(zIn: ZArg, zOut: ZArg, dataIn: InputArg, dataOut: OutputArg, rules: seq<Rule>,
                                i: nat, f: Fault)
    requires zIn.Valid() && zOut.Valid()
    ensures Validate(zIn, zOut, dataIn, dataOut, rules) == Failure(BadRule(i, f)) <==>
              && RedshiftFactor(zIn, zOut).Success? && !dataIn.InputNotArray? && !dataOut.OutputNotArray?
              && i < |rules| && ScanRules(rules[..i], dataIn, dataOut).Success?
              && CheckRule(i, rules[i], dataIn, dataOut, ScanRules(rules[..i], dataIn, dataOut).value) == Failure(BadRule(i, f))
  {
    var v := Validate(zIn, zOut, dataIn, dataOut, rules);
    if v == Failure(BadRule(i, f)) {
      ValidateErrors(zIn, zOut, dataIn, dataOut, rules);
      var factor := RedshiftFactor(zIn, zOut).value;
      assert v == Checked(factor, dataIn, dataOut, rules);
      ScanFailure(rules, dataIn, dataOut);
    }
    if RedshiftFactor(zIn, zOut).Success? && !dataIn.InputNotArray? && !dataOut.OutputNotArray?
       && i < |rules| && ScanRules(rules[..i], dataIn, dataOut).Success?
    {
      var st := ScanRules(rules[..i], dataIn, dataOut).value;
      if CheckRule(i, rules[i], dataIn, dataOut, st) == Failure(BadRule(i, f)) {
        ScanStops(rules, i, dataIn, dataOut, st);
        assert v == Checked(RedshiftFactor(zIn, zOut).value, dataIn, dataOut, rules);
      }
    }
  }

  // ---------------------------------------------------------------------
  // Shapes and masks of the output

  /**
   * The output shape is the broadcast of the input shape (data_in's, else the
   * first array_in's, which every array_in shares) with z_factor's; a
   * supplied data_out has exactly that shape; scalar redshifts keep the
   * input shape.
   */
  lemma OutputShape(zIn: ZArg, zOut: ZArg, dataIn: InputArg, dataOut: OutputArg, rules: seq<Rule>)
    requires zIn.Valid() && zOut.Valid() && Validate(zIn, zOut, dataIn, dataOut, rules).Success?
    ensures var p := Validate(zIn, zOut, dataIn, dataOut, rules).value;
            && Broadcast(zOut.AsArray().shape, zIn.AsArray().shape) == Some(p.factor.shape)
            && Broadcast(p.shapeIn, p.factor.shape) == Some(p.shapeOut)
            && (dataIn.Input? ==> p.shapeIn == dataIn.records.shape)
            && (dataIn.NoInput? ==>
                  && rules != [] && rules[0].arrayIn.Array? && p.shapeIn == rules[0].arrayIn.a.shape
                  && forall j :: 0 <= j < |rules| ==> rules[j].arrayIn.Array? && rules[j].arrayIn.a.shape == p.shapeIn)
            && (dataOut.Output? ==> dataOut.table.shape == p.shapeOut)
            && (zIn.Number? && zOut.Number? ==> p.shapeOut == p.shapeIn)
  {
    var v := Validate(zIn, zOut, dataIn, dataOut, rules);
    var f := RedshiftFactor(zIn, zOut).value;
    assert v == Checked(f, dataIn, dataOut, rules);
    var st := ScanRules(rules, dataIn, dataOut).value;
    assert v == Allocate(st, f, dataOut);
    ScanFacts(rules, dataIn, dataOut);
    if zIn.Number? && zOut.Number? {
      BroadcastNeutral([]);
      BroadcastNeutral(v.value.shapeIn);
    }
  }

  /**
   * A new output is masked exactly when data_in or some array_in is masked
   * (line 117), with every field in the dtype; a supplied data_out must then
   * be masked too (line 123).
   */
  lemma OutputMasked(zIn: ZArg, zOut: ZArg, dataIn: InputArg, dataOut: OutputArg, rules: seq<Rule>)
    requires zIn.Valid() && zOut.Valid() && Validate(zIn, zOut, dataIn, dataOut, rules).Success?
    ensures var p := Validate(zIn, zOut, dataIn, dataOut, rules).value;
            && (p.maskedIn <==> InputsMasked(dataIn, rules))
            && (dataOut.Output? && InputsMasked(dataIn, rules) ==> dataOut.table.masked)
            && (dataIn.Input? ==> p.dtype == dataIn.records.fields)
            && (dataIn.NoInput? ==> p.dtype == Names(rules))
  {
    ScanFacts(rules, dataIn, dataOut);
    if dataIn.Input? {
      assert !exists j :: 0 <= j < |rules| && rules[j].arrayIn.Array? && rules[j].arrayIn.a.mask.Some?;
    }
  }

  /** Every field of a newly allocated output is written: it is a data_in field or some rule's name. */
  lemma FreshOutputFullyWritten(zIn: ZArg, zOut: ZArg, dataIn: InputArg, rules: seq<Rule>, f: string)
    requires zIn.Valid() && zOut.Valid() && Validate(zIn, zOut, dataIn, NoOutput, rules).Success?
    requires f in Validate(zIn, zOut, dataIn, NoOutput, rules).value.dtype
    ensures (dataIn.Input? && f in dataIn.records.fields) || exists j :: 0 <= j < |rules| && rules[j].name == Str(f)
  {
    OutputMasked(zIn, zOut, dataIn, NoOutput, rules);
    ScanFacts(rules, dataIn, NoOutput);
    if dataIn.NoInput? {
      NamesAt(rules, f);
    }
  }

  lemma {:induction false} NamesAt(rules: seq<Rule>, f: string)
    requires f in Names(rules) && forall j :: 0 <= j < |rules| ==> rules[j].name.Str?
    ensures exists j :: 0 <= j < |rules| && rules[j].name == Str(f)
    decreases |rules|
  {
    var n := |rules|;
    if rules[n - 1].name == Str(f) {
      return;
    }
    NamesAt(rules[..n - 1], f);
    var j :| 0 <= j < n - 1 && rules[..n - 1][j].name == Str(f);
    assert rules[j].name == Str(f);
  }

  // ---------------------------------------------------------------------
  // Write-back into the rules (line 113)

  /** The rules a call reached were all accepted by line 81's loop, after the checks of lines 57-70 passed. */
  lemma ReachedAccepted(zIn: ZArg, zOut: ZArg, dataIn: InputArg, dataOut: OutputArg, rules: seq<Rule>)
    requires zIn.Valid() && zOut.Valid()
    requires Reached(Validate(zIn, zOut, dataIn, dataOut, rules), |rules|) > 0
    ensures RedshiftFactor(zIn, zOut).Success? && !dataIn.InputNotArray? && !dataOut.OutputNotArray?
    ensures Reached(Validate(zIn, zOut, dataIn, dataOut, rules), |rules|) <= |rules|
    ensures ScanRules(rules[..Reached(Validate(zIn, zOut, dataIn, dataOut, rules), |rules|)], dataIn, dataOut).Success?
  {
    var v := Validate(zIn, zOut, dataIn, dataOut, rules);
    ValidateErrors(zIn, zOut, dataIn, dataOut, rules);
    if ScanRules(rules, dataIn, dataOut).Failure? {
      ScanFailure(rules, dataIn, dataOut);
    } else {
      assert rules[..|rules|] == rules;
    }
  }

  /** A rule whose `array_in` is set, given together with `data_in`, stops a call at the conflict check (line 96). */
  lemma ConflictAtFirstRule(zIn: ZArg, zOut: ZArg, d: Records, dataOut: OutputArg, rules: seq<Rule>)
    requires zIn.Valid() && zOut.Valid()
    requires RedshiftFactor(zIn, zOut).Success? && !dataOut.OutputNotArray?
    requires rules != [] && rules[0].name.Str? && rules[0].exponent.Float? && rules[0].arrayIn.Array?
    requires rules[0].name.s in d.fields && (dataOut.Output? ==> rules[0].name.s in dataOut.table.fields)
    ensures Validate(zIn, zOut, Input(d), dataOut, rules) == Failure(BadRule(0, SourceConflict))
  {
    assert rules[..0] == [];
    ScanStops(rules, 0, Input(d), dataOut, InitialScan(Input(d)));
  }

  /**
   * Every rule that the loop accepted before returning or raising now holds
   * `data_in[name]` as its `array_in`; a second call with the same
   * arguments and these rules then stops at the first rule with the
   * data_in/array_in conflict (line 96).
   */
  lemma SecondCallConflicts(zIn: ZArg, zOut: ZArg, d: Records, dataOut: OutputArg, rules: seq<Rule>)
    requires zIn.Valid() && zOut.Valid() && d.Valid()
    requires Reached(Validate(zIn, zOut, Input(d), dataOut, rules), |rules|) > 0
    ensures var after := RulesAfter(rules, Input(d), Validate(zIn, zOut, Input(d), dataOut, rules));
            && (forall j :: 0 <= j < Reached(Validate(zIn, zOut, Input(d), dataOut, rules), |rules|) ==>
                  && rules[j].arrayIn.NoArray? && rules[j].name.Str? && rules[j].name.s in d.cols
                  && after[j].arrayIn == Array(d.Column(rules[j].name.s)))
            && Validate(zIn, zOut, Input(d), dataOut, after) == Failure(BadRule(0, SourceConflict))
  {
    var v := Validate(zIn, zOut, Input(d), dataOut, rules);
    var n := Reached(v, |rules|);
    ReachedAccepted(zIn, zOut, Input(d), dataOut, rules);
    var prefix := rules[..n];
    ScanFacts(prefix, Input(d), dataOut);
    assert forall j :: 0 <= j < n ==> prefix[j] == rules[j];
    var after := RulesAfter(rules, Input(d), v);
    assert after[0] == WriteBack(rules[0], Input(d));
    ConflictAtFirstRule(zIn, zOut, d, dataOut, after);
  }

  // ---------------------------------------------------------------------
  // Output columns (lines 129-140)

  /** The last rule naming `name`, if any (later rules overwrite earlier ones at line 138). */
  function LastRule(rules: seq<Rule>, name: string): (r: Option<nat>)
    ensures r.Some? ==> r.value < |rules| && rules[r.value].name == Str(name)
    ensures r.Some? ==> forall j :: r.value < j < |rules| ==> rules[j].name != Str(name)
    ensures r.None? ==> forall j :: 0 <= j < |rules| ==> rules[j].name != Str(name)
  {
    if rules == [] then None
    else if rules[|rules| - 1].name == Str(name) then Some(|rules| - 1)
    else LastRule(rules[..|rules| - 1], name)
  }

  /**
   * After line 134's loop, a column no rule names is as before, and a
   * named column holds the last such rule's rescaled input and, on a masked
   * output, that input's mask.
   */
  lemma {:induction false} WriteRulesAt(c: Content, masked: bool, plan: Plan, rules: seq<Rule>,
                                        pow: (real, real) -> real, name: string)
    requires forall j :: 0 <= j < |rules| ==> Ready(rules[j], plan)
    ensures var w := WriteRules(c, masked, plan, rules, pow);
            match LastRule(rules, name)
            case None =>
              && (name in c.cols <==> name in w.cols) && (name in c.cols ==> w.cols[name] == c.cols[name])
              && (name in c.masks <==> name in w.masks) && (name in c.masks ==> w.masks[name] == c.masks[name])
            case Some(j) =>
              && j < |rules| && Ready(rules[j], plan) && name in w.cols
              && w.cols[name] == Rescale(rules[j].arrayIn.a, plan.factor, rules[j].exponent.e, plan.shapeOut, pow)
              && (masked ==> name in w.masks && w.masks[name] == ValueMask(rules[j].arrayIn.a, plan.shapeOut))
    decreases |rules|
  {
    if rules == [] {
      return;
    }
    var n := |rules|;
    var prefix := rules[..n - 1];
    assert forall j :: 0 <= j < n - 1 ==> prefix[j] == rules[j];
    WriteRulesAt(c, masked, plan, prefix, pow, name);
    var before := WriteRules(c, masked, plan, prefix, pow);
    assert WriteRules(c, masked, plan, rules, pow) == WriteRule(before, masked, rules[n - 1], plan, pow);
    if rules[n - 1].name != Str(name) {
      assert LastRule(rules, name) == LastRule(prefix, name);
    }
  }

  /**
   * `z_factor` is 1 everywhere when z_out equals z_in once both are arrays
   * (lines 57-65): a number and a 0-dimensional array holding it count as equal.
   */
  lemma FactorOfEqualRedshifts(zIn: ZArg, zOut: ZArg)
    requires zIn.Valid() && zOut.Valid() && RedshiftFactor(zIn, zOut).Success?
    requires !zIn.NotANumber? && !zOut.NotANumber? && zIn.AsArray() == zOut.AsArray()
    ensures var f := RedshiftFactor(zIn, zOut).value;
            f.shape == zIn.AsArray().shape && forall k :: 0 <= k < |f.data| ==> f.data[k] == 1.0
  {
    var a := zIn.AsArray();
    BroadcastNeutral(a.shape);
    assert RedshiftFactor(zIn, zOut) == Success(ZFactor(a, a, a.shape));
    forall k | 0 <= k < Size(a.shape)
      ensures ZFactor(a, a, a.shape).data[k] == 1.0
    {
      SameFactorAt(a, k);
    }
  }

  lemma SameFactorAt(a: NdArray, k: nat)
    requires a.Valid() && !AnyNegative(a.data) && k < Size(a.shape)
    ensures Broadcast(a.shape, a.shape) == Some(a.shape)
    ensures ZFactor(a, a, a.shape).data[k] == 1.0
  {
    BroadcastNeutral(a.shape);
    var j := Stretch(a.shape, a.shape, k);
    assert ZFactor(a, a, a.shape).data[k] == (1.0 + a.data[j]) / (1.0 + a.data[j]);
    assert a.data[j] >= 0.0;
    DivSelf(1.0 + a.data[j]);
  }

  lemma DivSelf(x: real)
    requires x >= 1.0
    ensures x / x == 1.0
  {
  }

  /** Rescaling by a factor of 1, with `pow(1, e) == 1`, only stretches the input (line 138). */
  lemma RescaleByOne(a: NdArray, factor: NdArray, e: real, shape: Shape, pow: (real, real) -> real)
    requires a.Valid() && factor.Valid() && BroadcastsTo(a.shape, shape) && BroadcastsTo(factor.shape, shape)
    requires forall k :: 0 <= k < |factor.data| ==> factor.data[k] == 1.0
    requires pow(1.0, e) == 1.0
    ensures Rescale(a, factor, e, shape, pow) == Expand(a.data, a.shape, shape)
  {
    forall k | 0 <= k < Size(shape)
      ensures Rescale(a, factor, e, shape, pow)[k] == Expand(a.data, a.shape, shape)[k]
    {
      var j := Stretch(factor.shape, shape, k);
      assert factor.data[j] == 1.0;
    }
  }

  /**
   * The columns of a successful call with data_in (line 132, then 134-140):
   * a data_in field no rule names is copied, a named one holds
   * `data_in[name] * z_factor**exponent` for its last rule, and its mask is
   * data_in's; both stretched to the output shape.
   */
  lemma ColumnsFromDataIn(zIn: ZArg, zOut: ZArg, d: Records, dataOut: OutputArg, rules: seq<Rule>,
                          c: Content, masked: bool, pow: (real, real) -> real, name: string)
    requires zIn.Valid() && zOut.Valid() && d.Valid()
    requires Validate(zIn, zOut, Input(d), dataOut, rules).Success?
    requires name in d.cols && name in c.cols && (masked ==> name in c.masks)
    ensures var v := Validate(zIn, zOut, Input(d), dataOut, rules);
            var p := v.value;
            var after := RulesAfter(rules, Input(d), v);
            var w := Written(c, masked, p, Input(d), after, pow);
            && p.shapeIn == d.shape && p.Valid()
            && name in w.cols
            && (match LastRule(rules, name)
                case None => w.cols[name] == Expand(d.cols[name], d.shape, p.shapeOut)
                case Some(j) => rules[j].exponent.Float? &&
                                w.cols[name] == Rescale(d.Column(name), p.factor, rules[j].exponent.e, p.shapeOut, pow))
            && (masked ==> name in w.masks && w.masks[name] == ValueMask(d.Column(name), p.shapeOut))
  {
    var v := Validate(zIn, zOut, Input(d), dataOut, rules);
    var p := v.value;
    var after := RulesAfter(rules, Input(d), v);
    ScanFacts(rules, Input(d), dataOut);
    OutputShape(zIn, zOut, Input(d), dataOut, rules);
    BroadcastOperands(p.shapeIn, p.factor.shape);
    assert p.Valid();
    forall j | 0 <= j < |rules|
      ensures after[j] == rules[j].(arrayIn := Array(d.Column(rules[j].name.s)))
      ensures Ready(after[j], p)
    {
    }
    var copied := CopyIn(c, masked, d, p.shapeOut);
    WriteRulesAt(copied, masked, p, after, pow, name);
    SameLastRule(rules, after, name);
  }

  lemma {:induction false} SameLastRule(rules: seq<Rule>, after: seq<Rule>, name: string)
    requires |rules| == |after| && forall j :: 0 <= j < |rules| ==> after[j].name == rules[j].name
    ensures LastRule(after, name) == LastRule(rules, name)
    decreases |rules|
  {
    if rules != [] {
      var n := |rules|;
      SameLastRule(rules[..n - 1], after[..n - 1], name);
    }
  }

  /**
   * A field of a supplied data_out that no rule names and data_in lacks:
   * line 132 zero-fills it and, on a masked output, clears its mask; with
   * no data_in it keeps its values and mask.
   */
  lemma OtherOutputFields(zIn: ZArg, zOut: ZArg, dataIn: InputArg, t: OutTable, rules: seq<Rule>,
                          pow: (real, real) -> real, name: string)
    requires zIn.Valid() && zOut.Valid() && (dataIn.Input? ==> dataIn.records.Valid())
    requires forall k :: 0 <= k < |rules| && rules[k].arrayIn.Array? ==> rules[k].arrayIn.a.Valid()
    requires Validate(zIn, zOut, dataIn, Output(t), rules).Success?
    requires !(dataIn.Input? && name in dataIn.records.cols) && forall j :: 0 <= j < |rules| ==> rules[j].name != Str(name)
    ensures var v := Validate(zIn, zOut, dataIn, Output(t), rules);
            var n := Size(v.value.shapeOut);
            var w := Written(t.Contents(), t.masked, v.value, dataIn, RulesAfter(rules, dataIn, v), pow);
            && (name in w.cols <==> name in t.cols)
            && (name in t.cols ==> w.cols[name] == if dataIn.Input? then Zeros(n) else t.cols[name])
            && (name in w.masks <==> name in t.masks)
            && (name in t.masks ==> w.masks[name] == if dataIn.Input? && t.masked then AllFalse(n) else t.masks[name])
  {
    var v := Validate(zIn, zOut, dataIn, Output(t), rules);
    var p := v.value;
    var after := RulesAfter(rules, dataIn, v);
    ScanFacts(rules, dataIn, Output(t));
    OutputShape(zIn, zOut, dataIn, Output(t), rules);
    BroadcastOperands(p.shapeIn, p.factor.shape);
    forall j | 0 <= j < |rules|
      ensures after[j].name == rules[j].name && Ready(after[j], p)
    {
    }
    WriteRulesAt(Copied(t.Contents(), t.masked, p, dataIn), t.masked, p, after, pow, name);
    SameLastRule(rules, after, name);
  }

  /**
   * With no rules (lines 46-47), the output is data_in assigned by field
   * name: each of its fields takes data_in's column and mask, stretched to
   * the output shape, and any other field is zero-filled and unmasked.
   */
  lemma NoRulesCopiesDataIn(zIn: ZArg, zOut: ZArg, d: Records, dataOut: OutputArg,
                            c: Content, masked: bool, pow: (real, real) -> real)
    requires zIn.Valid() && zOut.Valid() && d.Valid()
    requires Validate(zIn, zOut, Input(d), dataOut, []).Success?
    ensures var v := Validate(zIn, zOut, Input(d), dataOut, []);
            var p := v.value;
            var w := Written(c, masked, p, Input(d), RulesAfter([], Input(d), v), pow);
            && p.shapeIn == d.shape && p.Valid()
            && (forall f :: f in w.cols <==> f in c.cols)
            && (forall f :: f in c.cols && f in d.cols ==> w.cols[f] == Expand(d.cols[f], d.shape, p.shapeOut))
            && (forall f :: f in c.cols && f !in d.cols ==> w.cols[f] == Zeros(Size(p.shapeOut)))
            && (forall f :: f in w.masks <==> f in c.masks)
            && (masked ==> forall f :: f in c.masks && f in d.cols ==> w.masks[f] == ValueMask(d.Column(f), p.shapeOut))
            && (masked ==> forall f :: f in c.masks && f !in d.cols ==> w.masks[f] == AllFalse(Size(p.shapeOut)))
            && (!masked ==> w.masks == c.masks)
  {
    OutputShape(zIn, zOut, Input(d), dataOut, []);
    var v := Validate(zIn, zOut, Input(d), dataOut, []);
    var p := v.value;
    BroadcastOperands(p.shapeIn, p.factor.shape);
    assert RulesAfter([], Input(d), v) == [];
    assert Written(c, masked, p, Input(d), [], pow) == CopyIn(c, masked, d, p.shapeOut);
  }

  /** `(1 + z_out) / (1 + z_in)` at the redshift elements that broadcasting to shape `s` reads for flat index `k`. */
  function ZRatio(zIn: ZArg, zOut: ZArg, s: Shape, k: nat): real
    requires zIn.Valid() && zOut.Valid() && !zIn.NotANumber? && !zOut.NotANumber? && !AnyNegative(zIn.AsArray().data)
    requires BroadcastsTo(zIn.AsArray().shape, s) && BroadcastsTo(zOut.AsArray().shape, s) && k < Size(s)
  {
    var zi, zo := zIn.AsArray(), zOut.AsArray();
    var j := Stretch(zi.shape, s, k);
    assert 0.0 <= zi.data[j];
    (1.0 + zo.data[Stretch(zo.shape, s, k)]) / (1.0 + zi.data[j])
  }

  /**
   * The plan's factor is `(1 + z_out) / (1 + z_in)`, elementwise over the
   * broadcast of the two redshifts (lines 57-65).
   */
  lemma FactorIsRedshiftRatio(zIn: ZArg, zOut: ZArg, dataIn: InputArg, dataOut: OutputArg, rules: seq<Rule>)
    requires zIn.Valid() && zOut.Valid()
    requires Validate(zIn, zOut, dataIn, dataOut, rules).Success?
    ensures var f := Validate(zIn, zOut, dataIn, dataOut, rules).value.factor;
            var zi, zo := zIn.AsArray(), zOut.AsArray();
            && !AnyNegative(zi.data) && !AnyNegative(zo.data)
            && Broadcast(zo.shape, zi.shape) == Some(f.shape)
            && BroadcastsTo(zo.shape, f.shape) && BroadcastsTo(zi.shape, f.shape)
            && f.mask.None? && |f.data| == Size(f.shape)
            && forall k :: 0 <= k < |f.data| ==> f.data[k] == ZRatio(zIn, zOut, f.shape, k)
  {
    var v := Validate(zIn, zOut, dataIn, dataOut, rules);
    assert RedshiftFactor(zIn, zOut).Success? && v.value.factor == RedshiftFactor(zIn, zOut).value by {
      assert v == Checked(RedshiftFactor(zIn, zOut).value, dataIn, dataOut, rules);
    }
    RedshiftFactorIsRatio(zIn, zOut);
  }

  lemma RedshiftFactorIsRatio(zIn: ZArg, zOut: ZArg)
    requires zIn.Valid() && zOut.Valid() && RedshiftFactor(zIn, zOut).Success?
    ensures var f := RedshiftFactor(zIn, zOut).value;
            var zi, zo := zIn.AsArray(), zOut.AsArray();
            && !AnyNegative(zi.data) && !AnyNegative(zo.data)
            && Broadcast(zo.shape, zi.shape) == Some(f.shape)
            && BroadcastsTo(zo.shape, f.shape) && BroadcastsTo(zi.shape, f.shape)
            && f.mask.None? && |f.data| == Size(f.shape)
            && forall k :: 0 <= k < |f.data| ==> f.data[k] == ZRatio(zIn, zOut, f.shape, k)
  {
    var zi, zo := zIn.AsArray(), zOut.AsArray();
    var f := RedshiftFactor(zIn, zOut).value;
    assert f == ZFactor(zi, zo, f.shape) && Broadcast(zo.shape, zi.shape) == Some(f.shape);
    BroadcastOperands(zo.shape, zi.shape);
    forall k | 0 <= k < |f.data|
      ensures f.data[k] == ZRatio(zIn, zOut, f.shape, k)
    {
    }
  }

  /** Line 11's power law: a value `x` observed at one redshift, seen at another, with `ratio = (1 + z_out) / (1 + z_in)`. */
  function PowerLaw(x: real, ratio: real, e: real, pow: (real, real) -> real): real
  {
    x * pow(ratio, e)
  }

  /**
   * The power law of line 11 for a ruled data_in field, element by element:
   * output element `k` is the data_in element broadcasting reads for `k`,
   * times `((1 + z_out) / (1 + z_in)) ** exponent` at the redshift elements
   * broadcasting reads for `k`; where that data_in element is masked,
   * numpy.ma leaves it unscaled (line 138).
   */
  lemma RuledColumnPowerLaw(zIn: ZArg, zOut: ZArg, d: Records, dataOut: OutputArg, rules: seq<Rule>,
                            c: Content, masked: bool, pow: (real, real) -> real, name: string, k: nat)
    requires zIn.Valid() && zOut.Valid() && d.Valid()
    requires Validate(zIn, zOut, Input(d), dataOut, rules).Success?
    requires name in d.cols && name in c.cols && (masked ==> name in c.masks)
    requires LastRule(rules, name).Some? && k < Size(Validate(zIn, zOut, Input(d), dataOut, rules).value.shapeOut)
    ensures var v := Validate(zIn, zOut, Input(d), dataOut, rules);
            var s := v.value.shapeOut;
            var w := Written(c, masked, v.value, Input(d), RulesAfter(rules, Input(d), v), pow);
            var rule := rules[LastRule(rules, name).value];
            && BroadcastsTo(d.shape, s) && BroadcastsTo(zIn.AsArray().shape, s) && BroadcastsTo(zOut.AsArray().shape, s)
            && rule.exponent.Float? && name in w.cols && |w.cols[name]| == Size(s)
            && (!MaskedAt(d.Column(name), s, k) ==>
                  w.cols[name][k] == PowerLaw(d.cols[name][Stretch(d.shape, s, k)], ZRatio(zIn, zOut, s, k), rule.exponent.e, pow))
            && (MaskedAt(d.Column(name), s, k) ==> w.cols[name][k] == d.cols[name][Stretch(d.shape, s, k)])
  {
    var v := Validate(zIn, zOut, Input(d), dataOut, rules);
    var p := v.value;
    var j := LastRule(rules, name).value;
    var w := Written(c, masked, p, Input(d), RulesAfter(rules, Input(d), v), pow);
    var col := d.Column(name);
    var sh, f := p.shapeOut, p.factor;
    assert rules[j].exponent.Float? && p.Valid() && col.shape == d.shape && col.data == d.cols[name]
           && name in w.cols && w.cols[name] == Rescale(col, f, rules[j].exponent.e, sh, pow) by {
      ColumnsFromDataIn(zIn, zOut, d, dataOut, rules, c, masked, pow, name);
    }
    var e := rules[j].exponent.e;
    RatioAt(zIn, zOut, Input(d), dataOut, rules, sh, k);
    RescaledColumnAt(w.cols[name], d, name, f, e, sh, pow, k, ZRatio(zIn, zOut, sh, k));
  }

  /**
   * Element `k` of a column holding data_in's field `name` rescaled, where
   * the factor element read for `k` is `y`: the power law, or the field's
   * own element where it is masked.
   */
  lemma RescaledColumnAt(r: seq<real>, d: Records, name: string, f: NdArray, e: real, s: Shape,
                         pow: (real, real) -> real, k: nat, y: real)
    requires d.Valid() && name in d.cols && f.Valid() && k < Size(s)
    requires BroadcastsTo(d.shape, s) && BroadcastsTo(f.shape, s) && r == Rescale(d.Column(name), f, e, s, pow)
    requires f.data[Stretch(f.shape, s, k)] == y
    ensures |r| == Size(s)
    ensures !MaskedAt(d.Column(name), s, k) ==> r[k] == PowerLaw(d.cols[name][Stretch(d.shape, s, k)], y, e, pow)
    ensures MaskedAt(d.Column(name), s, k) ==> r[k] == d.cols[name][Stretch(d.shape, s, k)]
  {
    RescaleRead(d.Column(name), f, e, s, pow, k);
  }

  /** Element `k` of `Rescale`, read through the broadcast of both operands; a masked element is left as it is. */
  lemma RescaleRead(a: NdArray, f: NdArray, e: real, s: Shape, pow: (real, real) -> real, k: nat)
    requires a.Valid() && f.Valid() && k < Size(s)
    requires BroadcastsTo(a.shape, s) && BroadcastsTo(f.shape, s)
    ensures !MaskedAt(a, s, k) ==>
              Rescale(a, f, e, s, pow)[k] == PowerLaw(a.data[Stretch(a.shape, s, k)], f.data[Stretch(f.shape, s, k)], e, pow)
    ensures MaskedAt(a, s, k) ==> Rescale(a, f, e, s, pow)[k] == a.data[Stretch(a.shape, s, k)]
  {
  }

  /** The factor element broadcasting reads for `k` is the redshift ratio at the redshift elements it reads for `k`. */
  lemma RatioAt(zIn: ZArg, zOut: ZArg, dataIn: InputArg, dataOut: OutputArg, rules: seq<Rule>, s: Shape, k: nat)
    requires zIn.Valid() && zOut.Valid()
    requires Validate(zIn, zOut, dataIn, dataOut, rules).Success?
    requires BroadcastsTo(Validate(zIn, zOut, dataIn, dataOut, rules).value.factor.shape, s) && k < Size(s)
    ensures var f := Validate(zIn, zOut, dataIn, dataOut, rules).value.factor;
            var zi, zo := zIn.AsArray(), zOut.AsArray();
            && BroadcastsTo(zi.shape, s) && BroadcastsTo(zo.shape, s) && !AnyNegative(zi.data)
            && f.data[Stretch(f.shape, s, k)] == ZRatio(zIn, zOut, s, k)
  {
    var f := Validate(zIn, zOut, dataIn, dataOut, rules).value.factor;
    var zi, zo := zIn.AsArray(), zOut.AsArray();
    FactorIsRedshiftRatio(zIn, zOut, dataIn, dataOut, rules);
    StretchCompose(zo.shape, f.shape, s, k);
    StretchCompose(zi.shape, f.shape, s, k);
  }

  // ---------------------------------------------------------------------
  // A 0-dimensional output (line 138)

  /**
   * As written, line 138's `data_out[name][:]` raises on a 0-dimensional
   * output after line 132 has copied data_in into a supplied data_out:
   * with z_in = 0, z_out = 1, a 0-dimensional data_in with field `flux`
   * and one rule for `flux`, every check passes, the call fails, and the
   * caller's table already holds data_in's value.
   */
  lemma ScalarOutputRaisesAfterCopy(t: OutTable)
    requires t.Valid() && t.shape == [] && t.fields == ["flux"] && !t.masked
    ensures var d := Records([], ["flux"], map["flux" := [2.0]], None);
            var rules := [Rule(Str("flux"), Float(1.0), NoArray)];
            var v := Validate(Number(0.0), Number(1.0), Input(d), Output(t), rules);
            && v.Success? && v.value.shapeOut == []
            && Outcome(v, |rules|) == Failure(ScalarColumn)
            && Copied(t.Contents(), t.masked, v.value, Input(d)).cols == map["flux" := [2.0]]
  {
    var d := Records([], ["flux"], map["flux" := [2.0]], None);
    var rules := [Rule(Str("flux"), Float(1.0), NoArray)];
    BroadcastNeutral([]);
    var factor := RedshiftFactor(Number(0.0), Number(1.0));
    assert factor.Success? && factor.value.shape == [];
    assert rules[..0] == [];
    var st := InitialScan(Input(d));
    assert ScanRules(rules, Input(d), Output(t)) == Success(st);
    assert Allocate(st, factor.value, Output(t)).Success?;
    var v := Validate(Number(0.0), Number(1.0), Input(d), Output(t), rules);
    assert v == Allocate(st, factor.value, Output(t));
    assert d.Valid();
    var c := Copied(t.Contents(), t.masked, v.value, Input(d));
    assert c == CopyIn(t.Contents(), false, d, []);
    assert Expand([2.0], [], []) == [2.0];
    assert t.cols.Keys == {"flux"};
  }

  /**
   * With the column written in place whatever the output's rank (`[...]`
   * rather than `[:]`), the same call returns, and its 0-dimensional
   * column holds `data_in * z_factor ** exponent`, the factor being
   * `(1 + 1) / (1 + 0) = 2`.
   */
  lemma ScalarOutputIntended(t: OutTable, pow: (real, real) -> real)
    requires t.Valid() && t.shape == [] && t.fields == ["flux"] && !t.masked
    ensures var d := Records([], ["flux"], map["flux" := [2.0]], None);
            var rules := [Rule(Str("flux"), Float(1.0), NoArray)];
            var v := Validate(Number(0.0), Number(1.0), Input(d), Output(t), rules);
            && v.Success?
            && var w := Written(t.Contents(), t.masked, v.value, Input(d), RulesAfter(rules, Input(d), v), pow);
               "flux" in w.cols && w.cols["flux"] == [2.0 * pow(2.0, 1.0)]
  {
    var d := Records([], ["flux"], map["flux" := [2.0]], None);
    var rules := [Rule(Str("flux"), Float(1.0), NoArray)];
    ScalarOutputRaisesAfterCopy(t);
    var v := Validate(Number(0.0), Number(1.0), Input(d), Output(t), rules);
    assert d.Valid();
    assert LastRule(rules, "flux") == Some(0);
    RuledColumnPowerLaw(Number(0.0), Number(1.0), d, Output(t), rules, t.Contents(), false, pow, "flux", 0);
    StretchIdentity([], 0);
    assert ZRatio(Number(0.0), Number(1.0), [], 0) == 2.0;
    var w := Written(t.Contents(), t.masked, v.value, Input(d), RulesAfter(rules, Input(d), v), pow);
    assert |w.cols["flux"]| == 1;
  }


  /**
   * When z_out equals z_in once both are arrays (and `x ** e` is 1 at
   * x = 1), every data_in field of the output equals the input field,
   * whether a rule names it or not; with 0-dimensional redshifts it is the
   * very same column.
   */
  lemma SameRedshiftIsIdentity(zIn: ZArg, zOut: ZArg, d: Records, dataOut: OutputArg, rules: seq<Rule>,
                               c: Content, masked: bool, pow: (real, real) -> real, name: string)
    requires zIn.Valid() && zOut.Valid() && d.Valid()
    requires Validate(zIn, zOut, Input(d), dataOut, rules).Success?
    requires !zIn.NotANumber? && !zOut.NotANumber? && zIn.AsArray() == zOut.AsArray()
    requires name in d.cols && name in c.cols && (masked ==> name in c.masks)
    requires forall e :: pow(1.0, e) == 1.0
    ensures var v := Validate(zIn, zOut, Input(d), dataOut, rules);
            var w := Written(c, masked, v.value, Input(d), RulesAfter(rules, Input(d), v), pow);
            && BroadcastsTo(d.shape, v.value.shapeOut)
            && name in w.cols && w.cols[name] == Expand(d.cols[name], d.shape, v.value.shapeOut)
            && (zIn.AsArray().shape == [] ==> w.cols[name] == d.cols[name])
  {
    var v := Validate(zIn, zOut, Input(d), dataOut, rules);
    var p := v.value;
    var w := Written(c, masked, p, Input(d), RulesAfter(rules, Input(d), v), pow);
    ColumnsFromDataIn(zIn, zOut, d, dataOut, rules, c, masked, pow, name);
    var col := d.Column(name);
    assert p.shapeIn == d.shape && p.Valid() && name in w.cols;
    if LastRule(rules, name).Some? {
      var j := LastRule(rules, name).value;
      assert RedshiftFactor(zIn, zOut).Success? && p.factor == RedshiftFactor(zIn, zOut).value;
      FactorOfEqualRedshifts(zIn, zOut);
      RescaleByOne(col, p.factor, rules[j].exponent.e, p.shapeOut, pow);
    }
    assert w.cols[name] == Expand(d.cols[name], d.shape, p.shapeOut);
    if zIn.AsArray().shape == [] {
      OutputShape(zIn, zOut, Input(d), dataOut, rules);
      BroadcastNeutral([]);
      BroadcastNeutral(d.shape);
      ExpandSame(d.cols[name], d.shape);
    }
  }

  /**
   * Without data_in, each ruled column holds its (last) rule's array_in
   * rescaled, and on a masked output a masked array_in's mask is copied
   * onto the column (lines 138-140).
   */
  lemma ColumnsFromArrays(zIn: ZArg, zOut: ZArg, dataOut: OutputArg, rules: seq<Rule>,
                          c: Content, masked: bool, pow: (real, real) -> real, j: nat)
    requires zIn.Valid() && zOut.Valid()
    requires forall k :: 0 <= k < |rules| && rules[k].arrayIn.Array? ==> rules[k].arrayIn.a.Valid()
    requires Validate(zIn, zOut, NoInput, dataOut, rules).Success?
    requires j < |rules| && rules[j].name.Str? && LastRule(rules, rules[j].name.s) == Some(j)
    ensures var v := Validate(zIn, zOut, NoInput, dataOut, rules);
            var w := Written(c, masked, v.value, NoInput, RulesAfter(rules, NoInput, v), pow);
            && rules[j].arrayIn.Array? && rules[j].exponent.Float? && v.value.Valid()
            && var a := rules[j].arrayIn.a;
            && a.Valid() && a.shape == v.value.shapeIn
            && rules[j].name.s in w.cols
            && w.cols[rules[j].name.s] == Rescale(a, v.value.factor, rules[j].exponent.e, v.value.shapeOut, pow)
            && (masked && a.mask.Some? ==>
                  rules[j].name.s in w.masks && w.masks[rules[j].name.s] == Expand(a.mask.value, a.shape, v.value.shapeOut))
  {
    var v := Validate(zIn, zOut, NoInput, dataOut, rules);
    var p := v.value;
    assert forall i :: 0 <= i < |rules| ==> Ready(rules[i], p) by {
      ScanFacts(rules, NoInput, dataOut);
      OutputShape(zIn, zOut, NoInput, dataOut, rules);
      BroadcastOperands(p.shapeIn, p.factor.shape);
    }
    assert RulesAfter(rules, NoInput, v) == rules by {
      assert Reached(v, |rules|) == |rules|;
      forall i | 0 <= i < |rules|
        ensures RulesAfter(rules, NoInput, v)[i] == rules[i]
      {
      }
    }
    WriteRulesAt(c, masked, p, rules, pow, rules[j].name.s);
  }

  /**
   * Without data_in, element `k` of a ruled column is the array's element
   * that broadcasting reads for `k` times `pow((1 + z_out) / (1 + z_in), exponent)`
   * at the redshift elements read for `k` (lines 57-65 and 137-138), or
   * that element unscaled where the array is masked.
   */
  lemma ArrayColumnPowerLaw(zIn: ZArg, zOut: ZArg, dataOut: OutputArg, rules: seq<Rule>,
                            c: Content, masked: bool, pow: (real, real) -> real, j: nat, k: nat)
    requires zIn.Valid() && zOut.Valid()
    requires forall i :: 0 <= i < |rules| && rules[i].arrayIn.Array? ==> rules[i].arrayIn.a.Valid()
    requires Validate(zIn, zOut, NoInput, dataOut, rules).Success?
    requires j < |rules| && rules[j].name.Str? && LastRule(rules, rules[j].name.s) == Some(j)
    requires k < Size(Validate(zIn, zOut, NoInput, dataOut, rules).value.shapeOut)
    ensures var v := Validate(zIn, zOut, NoInput, dataOut, rules);
            var w := Written(c, masked, v.value, NoInput, RulesAfter(rules, NoInput, v), pow);
            var s := v.value.shapeOut;
            && rules[j].arrayIn.Array? && rules[j].exponent.Float?
            && var a := rules[j].arrayIn.a;
            && a.Valid() && BroadcastsTo(a.shape, s)
            && !zIn.NotANumber? && !zOut.NotANumber? && !AnyNegative(zIn.AsArray().data)
            && BroadcastsTo(zIn.AsArray().shape, s) && BroadcastsTo(zOut.AsArray().shape, s)
            && rules[j].name.s in w.cols && |w.cols[rules[j].name.s]| == Size(s)
            && (!MaskedAt(a, s, k) ==>
                  w.cols[rules[j].name.s][k]
                  == PowerLaw(a.data[Stretch(a.shape, s, k)], ZRatio(zIn, zOut, s, k), rules[j].exponent.e, pow))
            && (MaskedAt(a, s, k) ==> w.cols[rules[j].name.s][k] == a.data[Stretch(a.shape, s, k)])
  {
    var v := Validate(zIn, zOut, NoInput, dataOut, rules);
    var p := v.value;
    var w := Written(c, masked, p, NoInput, RulesAfter(rules, NoInput, v), pow);
    var name := rules[j].name.s;
    var s, f := p.shapeOut, p.factor;
    assert rules[j].arrayIn.Array? && rules[j].exponent.Float? && p.Valid()
           && rules[j].arrayIn.a.Valid() && rules[j].arrayIn.a.shape == p.shapeIn && name in w.cols
           && w.cols[name] == Rescale(rules[j].arrayIn.a, f, rules[j].exponent.e, s, pow) by {
      ColumnsFromArrays(zIn, zOut, dataOut, rules, c, masked, pow, j);
    }
    var a, e := rules[j].arrayIn.a, rules[j].exponent.e;
    RatioAt(zIn, zOut, NoInput, dataOut, rules, s, k);
    RescaleRead(a, f, e, s, pow, k);
  }

  /**
   * Without data_in, redshifts equal once both are arrays leave every ruled
   * array unchanged apart from broadcasting, when `pow(1, e) == 1`
   * (lines 57-65 and 137-138).
   */
  lemma ArrayColumnIdentity(zIn: ZArg, zOut: ZArg, dataOut: OutputArg, rules: seq<Rule>,
                            c: Content, masked: bool, pow: (real, real) -> real, j: nat)
    requires zIn.Valid() && zOut.Valid()
    requires forall i :: 0 <= i < |rules| && rules[i].arrayIn.Array? ==> rules[i].arrayIn.a.Valid()
    requires Validate(zIn, zOut, NoInput, dataOut, rules).Success?
    requires !zIn.NotANumber? && !zOut.NotANumber? && zIn.AsArray() == zOut.AsArray()
    requires j < |rules| && rules[j].name.Str? && LastRule(rules, rules[j].name.s) == Some(j)
    requires forall e :: pow(1.0, e) == 1.0
    ensures var v := Validate(zIn, zOut, NoInput, dataOut, rules);
            var w := Written(c, masked, v.value, NoInput, RulesAfter(rules, NoInput, v), pow);
            && rules[j].arrayIn.Array?
            && var a := rules[j].arrayIn.a;
            && a.Valid() && BroadcastsTo(a.shape, v.value.shapeOut)
            && rules[j].name.s in w.cols
            && w.cols[rules[j].name.s] == Expand(a.data, a.shape, v.value.shapeOut)
  {
    var v := Validate(zIn, zOut, NoInput, dataOut, rules);
    var p := v.value;
    var w := Written(c, masked, p, NoInput, RulesAfter(rules, NoInput, v), pow);
    var name := rules[j].name.s;
    assert rules[j].arrayIn.Array? && rules[j].exponent.Float? && p.Valid()
           && rules[j].arrayIn.a.Valid() && rules[j].arrayIn.a.shape == p.shapeIn && name in w.cols
           && w.cols[name] == Rescale(rules[j].arrayIn.a, p.factor, rules[j].exponent.e, p.shapeOut, pow) by {
      ColumnsFromArrays(zIn, zOut, dataOut, rules, c, masked, pow, j);
    }
    var a, e := rules[j].arrayIn.a, rules[j].exponent.e;
    assert RedshiftFactor(zIn, zOut).Success? && p.factor == RedshiftFactor(zIn, zOut).value;
    FactorOfEqualRedshifts(zIn, zOut);
    RescaleByOne(a, p.factor, e, p.shapeOut, pow);
  }
}

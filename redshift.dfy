/**
 * `transform` of speclite/redshift.py: rescale named columns of spectral
 * data from redshift z_in to z_out by the power law
 *
 *     X_out = X_in * ((1 + z_out) / (1 + z_in)) ** exponent
 *
 * The pure part (what is accepted, which error is raised, the shapes and
 * the expected output) is given by functions; `Transform` performs the
 * same steps on a mutable output table and a mutable rule list and is
 * proved against them.
 */
module Redshift {
  import opened Wrappers
  import opened Shapes
  import opened Arrays

  // ---------------------------------------------------------------------
  // Arguments

  /** A redshift argument: a Python number, an ndarray, or a value `np.float` cannot convert. */
  datatype ZArg = Number(value: real) | ZArray(shape: Shape, data: seq<real>) | NotANumber
  {
    predicate Valid()
    {
      ZArray? ==> |data| == Size(shape)
    }

    /** The redshift as an array; a number is a 0-dimensional array. */
    function AsArray(): (a: NdArray)
      requires !NotANumber?
      ensures Valid() ==> a.Valid()
      ensures a.mask.None?
      ensures Number? ==> a.shape == [] && a.data == [value]
      ensures ZArray? ==> a.shape == shape && a.data == data
    {
      if Number? then NdArray([], [value], None) else NdArray(shape, data, None)
    }
  }

  /** `data_in`: absent (None), not an ndarray, or a structured array. */
  datatype InputArg = NoInput | InputNotArray | Input(records: Records)

  /** `data_out`: absent (None), not an ndarray, or a caller's structured array written in place. */
  datatype OutputArg = NoOutput | OutputNotArray | Output(table: OutTable)
  {
    function Objects(): set<object>
    {
      if Output? then {table} else {}
    }
  }

  /** The 'name' entry of a rule dictionary: a string, or anything else (including missing). */
  datatype Name = Str(s: string) | NotStr

  /** The 'exponent' entry, as `np.float` sees it. */
  datatype Exponent = Float(e: real) | NotConvertible

  /** The 'array_in' entry: missing (None), not an ndarray, or an array. */
  datatype Source = NoArray | NotAnArray | Array(a: NdArray)

  /** One rule dictionary of the `rules` list. */
  datatype Rule = Rule(name: Name, exponent: Exponent, arrayIn: Source)

  // ---------------------------------------------------------------------
  // Errors, one per `raise` (and per exception NumPy raises on the way)

  /** Why line 81's loop rejected a rule, in the order the checks run. */
  datatype Fault =
    | InvalidName      // line 83
    | InvalidExponent  // line 86
    | MissingInField   // line 90
    | MissingOutField  // line 92
    | SourceConflict   // line 96
    | InvalidArrayIn   // line 98
    | ShapeMismatch    // line 103
    | MissingArrayIn   // line 110

  datatype Error =
    | ZInNotANumber     // line 58: np.float(z_in) fails
    | NegativeZIn       // line 59
    | ZOutNotANumber    // line 62
    | NegativeZOut      // line 63
    | RedshiftShapes    // line 65: z_out and z_in do not broadcast
    | InvalidDataIn     // line 67
    | InvalidDataOut    // line 69
    | BadRule(index: nat, fault: Fault)
    | NoInputShape      // line 115 with no data_in and no rules
    | OutputShapes      // line 115: input shape and z_factor do not broadcast
    | DuplicateField    // line 118/121: a field named twice in the new dtype
    | MaskDiscarded     // line 123
    | OutShapeMismatch  // line 125
    | ScalarColumn      // line 138: `[:]` on the column of a 0-dimensional output (NumPy's IndexError)
  {
    /** Raised before line 81's loop looks at any rule. */
    predicate BeforeRules()
    {
      ZInNotANumber? || NegativeZIn? || ZOutNotANumber? || NegativeZOut? || RedshiftShapes?
      || InvalidDataIn? || InvalidDataOut?
    }
  }

  // ---------------------------------------------------------------------
  // The output table

  /** Columns and (for a masked array) per-field masks of a structured array. */
  datatype Content = Content(cols: map<string, seq<real>>, masks: map<string, seq<bool>>)

  /** `c` is a possible content of a structured array with this shape, dtype and mask capability. */
  ghost predicate Fits(shape: Shape, fields: seq<string>, masked: bool, c: Content)
  {
    && (forall f :: f in c.cols <==> f in fields)
    && (forall f :: f in c.cols ==> |c.cols[f]| == Size(shape))
    && (masked ==> forall f :: f in c.masks <==> f in fields)
    && (masked ==> forall f :: f in c.masks ==> |c.masks[f]| == Size(shape))
    && (!masked ==> c.masks == map[])
  }

  /**
   * The content of `np.empty(shape, dtype)`, or of `ma.empty(...)` after
   * `mask = False`.  NumPy leaves the values undefined; zeros stand for them.
   */
  function Blank(shape: Shape, fields: seq<string>, masked: bool): (c: Content)
    ensures Fits(shape, fields, masked, c)
    ensures masked ==> forall f :: f in c.masks ==> forall k :: 0 <= k < |c.masks[f]| ==> !c.masks[f][k]
  {
    Content(map f | f in fields :: Zeros(Size(shape)),
            if masked then map f | f in fields :: AllFalse(Size(shape)) else map[])
  }

  /** A structured ndarray that `transform` allocates or writes into. Shape, dtype and mask capability are fixed. */
  class OutTable {
    const shape: Shape
    const fields: seq<string>
    const masked: bool
    var cols: map<string, seq<real>>
    var masks: map<string, seq<bool>>

    ghost predicate Valid()
      reads this
    {
      NoDuplicates(fields) && Fits(shape, fields, masked, Contents())
    }

    function Contents(): Content
      reads this
    {
      Content(cols, masks)
    }

    /** Lines 117-121: a new (masked) array of the given shape and dtype, mask all False. */
    constructor Empty(shape: Shape, fields: seq<string>, masked: bool)
      requires NoDuplicates(fields)
      ensures Valid()
      ensures this.shape == shape && this.fields == fields && this.masked == masked
      ensures Contents() == Blank(shape, fields, masked)
    {
      this.shape := shape;
      this.fields := fields;
      this.masked := masked;
      var c := Blank(shape, fields, masked);
      cols := c.cols;
      masks := c.masks;
    }

    /** Line 132, `data_out[...] = data_in`. */
    method Assign(d: Records)
      requires Valid() && d.Valid() && BroadcastsTo(d.shape, shape)
      modifies this
      ensures Valid()
      ensures Contents() == CopyIn(old(Contents()), masked, d, shape)
    {
      var c := CopyIn(Contents(), masked, d, shape);
      cols := c.cols;
      masks := c.masks;
    }

    /** Line 138, `data_out[name][:] = value`, for a value with the given mask. */
    method SetColumn(name: string, values: seq<real>, mask: seq<bool>)
      requires Valid() && name in fields && |values| == Size(shape) && |mask| == Size(shape)
      modifies this
      ensures Valid()
      ensures cols == old(cols)[name := values]
      ensures masks == if masked then old(masks)[name := mask] else old(masks)
    {
      cols := cols[name := values];
      if masked {
        masks := masks[name := mask];
      }
    }

    /** Line 140, `data_out[name].mask[...] = mask`. */
    method SetMask(name: string, mask: seq<bool>)
      requires Valid() && masked && name in fields && |mask| == Size(shape)
      modifies this
      ensures Valid()
      ensures cols == old(cols) && masks == old(masks)[name := mask]
    {
      masks := masks[name := mask];
    }
  }

  // ---------------------------------------------------------------------
  // Redshift factor (lines 57-65)

  predicate AnyNegative(s: seq<real>)
  {
    exists k :: 0 <= k < |s| && s[k] < 0.0
  }

  /** `(1 + z_out) / (1 + z_in)`, elementwise over the broadcast of the two redshift shapes. */
  function ZFactor(zIn: NdArray, zOut: NdArray, shape: Shape): (f: NdArray)
    requires zIn.Valid() && zOut.Valid() && !AnyNegative(zIn.data) && !AnyNegative(zOut.data)
    requires Broadcast(zOut.shape, zIn.shape) == Some(shape)
    ensures f.Valid() && f.shape == shape && f.mask.None?
  {
    BroadcastOperands(zOut.shape, zIn.shape);
    NdArray(shape,
            seq(Size(shape), k requires 0 <= k < Size(shape) =>
              (1.0 + zOut.data[Stretch(zOut.shape, shape, k)]) / (1.0 + zIn.data[Stretch(zIn.shape, shape, k)])),
            None)
  }

  /** Lines 57-65: convert and check both redshifts, then form the redshift factor. */
  function RedshiftFactor(zIn: ZArg, zOut: ZArg): (r: Result<NdArray, Error>)
    requires zIn.Valid() && zOut.Valid()
    ensures r.Success? ==> r.value.Valid()
  {
    if zIn.NotANumber? then Failure(ZInNotANumber)
    else if AnyNegative(zIn.AsArray().data) then Failure(NegativeZIn)
    else if zOut.NotANumber? then Failure(ZOutNotANumber)
    else if AnyNegative(zOut.AsArray().data) then Failure(NegativeZOut)
    else
      match Broadcast(zOut.AsArray().shape, zIn.AsArray().shape)
      case None => Failure(RedshiftShapes)
      case Some(s) => Success(ZFactor(zIn.AsArray(), zOut.AsArray(), s))
  }

  // ---------------------------------------------------------------------
  // The rule loop (lines 72-113)

  /** The loop's variables: `shape_in`, `dtype_in` (field names) and `masked_in`. */
  datatype Scan = Scan(shapeIn: Option<Shape>, dtype: seq<string>, maskedIn: bool)

  /** Lines 72-79. */
  function InitialScan(dataIn: InputArg): Scan
  {
    if dataIn.Input? then Scan(Some(dataIn.records.shape), dataIn.records.fields, dataIn.records.masks.Some?)
    else Scan(None, [], false)
  }

  /** Lines 82-111: check rule `i` against the state of the loop and update that state. */
  function CheckRule(i: nat, rule: Rule, dataIn: InputArg, dataOut: OutputArg, st: Scan): Result<Scan, Error>
  {
    if rule.name.NotStr? then Failure(BadRule(i, InvalidName))
    else if rule.exponent.NotConvertible? then Failure(BadRule(i, InvalidExponent))
    else if dataIn.Input? && rule.name.s !in dataIn.records.fields then Failure(BadRule(i, MissingInField))
    else if dataOut.Output? && rule.name.s !in dataOut.table.fields then Failure(BadRule(i, MissingOutField))
    else
      match rule.arrayIn
      case NotAnArray =>
        if dataIn.Input? then Failure(BadRule(i, SourceConflict)) else Failure(BadRule(i, InvalidArrayIn))
      case Array(a) =>
        if dataIn.Input? then Failure(BadRule(i, SourceConflict))
        else if st.shapeIn.Some? && st.shapeIn.value != a.shape then Failure(BadRule(i, ShapeMismatch))
        else Success(Scan(Some(a.shape), st.dtype + [rule.name.s], st.maskedIn || a.mask.Some?))
      case NoArray =>
        if dataIn.Input? then Success(st) else Failure(BadRule(i, MissingArrayIn))
  }

  /** Line 81's loop over the first |rules| rules: the first failing rule stops it. */
  function ScanRules(rules: seq<Rule>, dataIn: InputArg, dataOut: OutputArg): Result<Scan, Error>
  {
    if rules == [] then Success(InitialScan(dataIn))
    else
      match ScanRules(rules[..|rules| - 1], dataIn, dataOut)
      case Failure(e) => Failure(e)
      case Success(st) => CheckRule(|rules| - 1, rules[|rules| - 1], dataIn, dataOut, st)
  }

  /** Line 113: a rule that takes its input from `data_in` gets `array_in = data_in[name]`. */
  function WriteBack(rule: Rule, dataIn: InputArg): Rule
  {
    if dataIn.Input? && rule.arrayIn.NoArray? && rule.name.Str? && rule.name.s in dataIn.records.cols
    then rule.(arrayIn := Array(dataIn.records.Column(rule.name.s)))
    else rule
  }

  // ---------------------------------------------------------------------
  // Output shape and allocation (lines 115-127)

  /** What the checks established: the factor, the input and output shapes, whether inputs are masked, the new dtype. */
  datatype Plan = Plan(factor: NdArray, shapeIn: Shape, shapeOut: Shape, maskedIn: bool, dtype: seq<string>)
  {
    predicate Valid()
    {
      && factor.Valid() && Broadcast(shapeIn, factor.shape) == Some(shapeOut)
      && BroadcastsTo(shapeIn, shapeOut) && BroadcastsTo(factor.shape, shapeOut)
    }
  }

  /** Lines 115-127. */
  function Allocate(st: Scan, factor: NdArray, dataOut: OutputArg): Result<Plan, Error>
  {
    if st.shapeIn.None? then Failure(NoInputShape)
    else
      match Broadcast(st.shapeIn.value, factor.shape)
      case None => Failure(OutputShapes)
      case Some(shapeOut) =>
        var plan := Plan(factor, st.shapeIn.value, shapeOut, st.maskedIn, st.dtype);
        match dataOut
        case Output(t) =>
          if st.maskedIn && !t.masked then Failure(MaskDiscarded)
          else if t.shape != shapeOut then Failure(OutShapeMismatch)
          else Success(plan)
        case _ =>
          if NoDuplicates(st.dtype) then Success(plan) else Failure(DuplicateField)
  }

  /** Lines 57-127: everything `transform` checks before it writes to the output. */
  function Validate(zIn: ZArg, zOut: ZArg, dataIn: InputArg, dataOut: OutputArg, rules: seq<Rule>): (r: Result<Plan, Error>)
    requires zIn.Valid() && zOut.Valid()
    ensures r.Success? ==> r.value.factor.Valid()
  {
    match RedshiftFactor(zIn, zOut)
    case Failure(e) => Failure(e)
    case Success(factor) =>
      if dataIn.InputNotArray? then Failure(InvalidDataIn)
      else if dataOut.OutputNotArray? then Failure(InvalidDataOut)
      else Checked(factor, dataIn, dataOut, rules)
  }

  /** Lines 72-127, once the redshift factor and the argument types are accepted. */
  function Checked(factor: NdArray, dataIn: InputArg, dataOut: OutputArg, rules: seq<Rule>): (r: Result<Plan, Error>)
    ensures r.Success? ==> r.value.factor == factor
  {
    match ScanRules(rules, dataIn, dataOut)
    case Failure(e) => Failure(e)
    case Success(st) => Allocate(st, factor, dataOut)
  }

  /**
   * What the call ends with, from what lines 57-127 decided (`v`) and the
   * number of rules: line 138 slices each ruled column with `[:]`, which
   * the column of a 0-dimensional output does not allow, so such a call
   * raises at the first rule, after line 132 has run.
   */
  function Outcome(v: Result<Plan, Error>, n: nat): Result<Plan, Error>
  {
    if v.Success? && v.value.shapeOut == [] && n > 0 then Failure(ScalarColumn) else v
  }

  /** How many rules line 81's loop accepted (and wrote back) before `transform` returned or raised. */
  function Reached(v: Result<Plan, Error>, n: nat): nat
  {
    match v
    case Failure(BadRule(i, _)) => if i < n then i else n
    case Failure(e) => if e.BeforeRules() then 0 else n
    case Success(_) => n
  }

  /** The rule list with its first `n` rules written back (line 113) and the others as they were. */
  function WrittenBack(rules: seq<Rule>, dataIn: InputArg, n: nat): (r: seq<Rule>)
    ensures |r| == |rules|
  {
    seq(|rules|, j requires 0 <= j < |rules| => if j < n then WriteBack(rules[j], dataIn) else rules[j])
  }

  /** The caller's rule list after the call: accepted rules written back, the others as they were. */
  function RulesAfter(rules: seq<Rule>, dataIn: InputArg, v: Result<Plan, Error>): seq<Rule>
  {
    WrittenBack(rules, dataIn, Reached(v, |rules|))
  }

  // ---------------------------------------------------------------------
  // Writing the output (lines 129-140)

  /**
   * Line 132 on a table with content `c`, assigning field by field by name:
   * a field `data_in` has takes its values and mask, stretched to `shape`;
   * any other field is zero-filled and unmasked.
   */
  function CopyIn(c: Content, masked: bool, d: Records, shape: Shape): Content
    requires d.Valid() && BroadcastsTo(d.shape, shape)
  {
    Content(map f | f in c.cols :: if f in d.cols then Expand(d.cols[f], d.shape, shape) else Zeros(Size(shape)),
            if masked then map f | f in c.masks :: if f in d.cols then ValueMask(d.Column(f), shape) else AllFalse(Size(shape))
            else c.masks)
  }

  /**
   * Elementwise `array_in * z_factor**exponent`, both operands stretched to
   * `shape`; `pow` is NumPy's `**`.  numpy.ma does not process a masked
   * element: the product keeps `array_in`'s own value there.
   */
  function Rescale(a: NdArray, factor: NdArray, e: real, shape: Shape, pow: (real, real) -> real): (r: seq<real>)
    requires a.Valid() && factor.Valid() && BroadcastsTo(a.shape, shape) && BroadcastsTo(factor.shape, shape)
    ensures |r| == Size(shape)
  {
    seq(Size(shape), k requires 0 <= k < Size(shape) =>
      if MaskedAt(a, shape, k) then a.data[Stretch(a.shape, shape, k)]
      else a.data[Stretch(a.shape, shape, k)] * pow(factor.data[Stretch(factor.shape, shape, k)], e))
  }

  /** A rule as line 134's loop finds it after a successful check. */
  predicate Ready(rule: Rule, plan: Plan)
  {
    && rule.name.Str? && rule.exponent.Float? && rule.arrayIn.Array?
    && rule.arrayIn.a.Valid() && rule.arrayIn.a.shape == plan.shapeIn && plan.Valid()
  }

  /** Lines 135-140 for one rule: the column gets the rescaled values and, on a masked output, the input's mask. */
  function WriteRule(c: Content, masked: bool, rule: Rule, plan: Plan, pow: (real, real) -> real): Content
  {
    if Ready(rule, plan) then
      var a := rule.arrayIn.a;
      Content(c.cols[rule.name.s := Rescale(a, plan.factor, rule.exponent.e, plan.shapeOut, pow)],
              if masked then c.masks[rule.name.s := ValueMask(a, plan.shapeOut)] else c.masks)
    else c
  }

  /** Line 134's loop over the first |rules| rules. */
  function WriteRules(c: Content, masked: bool, plan: Plan, rules: seq<Rule>, pow: (real, real) -> real): Content
  {
    if rules == [] then c
    else WriteRule(WriteRules(c, masked, plan, rules[..|rules| - 1], pow), masked, rules[|rules| - 1], plan, pow)
  }

  /** Lines 129-132: the table's content `c` once `data_in`, if given, is copied in. */
  ghost function Copied(c: Content, masked: bool, plan: Plan, dataIn: InputArg): Content
  {
    if dataIn.Input? && dataIn.records.Valid() && BroadcastsTo(dataIn.records.shape, plan.shapeOut)
    then CopyIn(c, masked, dataIn.records, plan.shapeOut)
    else c
  }

  /** Lines 129-140: the output content, from the table's content `c` before the call and the written-back rules. */
  ghost function Written(c: Content, masked: bool, plan: Plan, dataIn: InputArg, rules: seq<Rule>, pow: (real, real) -> real): Content
  {
    WriteRules(Copied(c, masked, plan, dataIn), masked, plan, rules, pow)
  }

  // ---------------------------------------------------------------------
  // transform

  /** What line 81's loop guarantees of an accepted (and written back) rule. */
  predicate Accepted(rule: Rule, st: Scan, dataOut: OutputArg)
  {
    && rule.name.Str? && rule.exponent.Float? && rule.arrayIn.Array?
    && rule.arrayIn.a.Valid() && st.shapeIn == Some(rule.arrayIn.a.shape)
    && (rule.arrayIn.a.mask.Some? ==> st.maskedIn)
    && rule.name.s in st.dtype
    && (dataOut.Output? ==> rule.name.s in dataOut.table.fields)
  }

  lemma ScanStops(rules: seq<Rule>, i: nat, dataIn: InputArg, dataOut: OutputArg, st: Scan)
    requires i < |rules| && ScanRules(rules[..i], dataIn, dataOut) == Success(st)
    requires CheckRule(i, rules[i], dataIn, dataOut, st).Failure?
    ensures ScanRules(rules, dataIn, dataOut) == CheckRule(i, rules[i], dataIn, dataOut, st)
    decreases |rules|
  {
    assert rules[..i + 1][..i] == rules[..i];
    if i + 1 < |rules| {
      assert rules[..|rules| - 1][..i] == rules[..i];
      ScanStops(rules[..|rules| - 1], i, dataIn, dataOut, st);
    } else {
      assert rules[..i + 1] == rules;
    }
  }

  /** A later accepted rule only extends what an earlier accepted rule relies on. */
  lemma AcceptedKept(rule: Rule, i: nat, next: Rule, dataIn: InputArg, dataOut: OutputArg, st: Scan)
    requires Accepted(rule, st, dataOut) && CheckRule(i, next, dataIn, dataOut, st).Success?
    ensures Accepted(rule, CheckRule(i, next, dataIn, dataOut, st).value, dataOut)
  {
  }

  /** Lines 82-113 for rule `i`, given the loop's state `st`. */
  method CheckOne(i: nat, dataIn: InputArg, dataOut: OutputArg, rules: array<Rule>, st: Scan) returns (r: Result<Scan, Error>)
    requires i < rules.Length && !dataIn.InputNotArray? && !dataOut.OutputNotArray?
    requires dataIn.Input? ==> dataIn.records.Valid() && st == InitialScan(dataIn)
    requires rules[i].arrayIn.Array? ==> rules[i].arrayIn.a.Valid()
    modifies rules
    ensures r == CheckRule(i, old(rules[i]), dataIn, dataOut, st)
    ensures rules[..] == old(rules[..])[i := if r.Success? then WriteBack(old(rules[i]), dataIn) else old(rules[i])]
    ensures r.Success? ==> Accepted(rules[i], r.value, dataOut)
  {
    var rule := rules[i];
    if rule.name.NotStr? {
      return Failure(BadRule(i, InvalidName));
    }
    var name := rule.name.s;
    if rule.exponent.NotConvertible? {
      return Failure(BadRule(i, InvalidExponent));
    }
    if dataIn.Input? && name !in dataIn.records.fields {
      return Failure(BadRule(i, MissingInField));
    }
    if dataOut.Output? && name !in dataOut.table.fields {
      return Failure(BadRule(i, MissingOutField));
    }
    match rule.arrayIn {
      case NotAnArray =>
        if dataIn.Input? {
          return Failure(BadRule(i, SourceConflict));
        }
        return Failure(BadRule(i, InvalidArrayIn));
      case Array(a) =>
        if dataIn.Input? {
          return Failure(BadRule(i, SourceConflict));
        }
        if st.shapeIn.Some? && st.shapeIn.value != a.shape {
          return Failure(BadRule(i, ShapeMismatch));
        }
        r := Success(Scan(Some(a.shape), st.dtype + [name], st.maskedIn || a.mask.Some?));
      case NoArray =>
        if dataIn.NoInput? {
          return Failure(BadRule(i, MissingArrayIn));
        }
        rules[i] := rule.(arrayIn := Array(dataIn.records.Column(name)));
        r := Success(st);
    }
  }

  /** Writing back rule `i` extends the written-back prefix by one. */
  lemma WrittenBackStep(rules: seq<Rule>, dataIn: InputArg, i: nat)
    requires i < |rules|
    ensures WrittenBack(rules, dataIn, i)[i := WriteBack(rules[i], dataIn)] == WrittenBack(rules, dataIn, i + 1)
  {
  }

  /** Lines 72-113 on the caller's rule list. */
  method CheckRules(dataIn: InputArg, dataOut: OutputArg, rules: array<Rule>) returns (r: Result<Scan, Error>)
    requires !dataIn.InputNotArray? && !dataOut.OutputNotArray?
    requires dataIn.Input? ==> dataIn.records.Valid()
    requires forall j :: 0 <= j < rules.Length && rules[j].arrayIn.Array? ==> rules[j].arrayIn.a.Valid()
    modifies rules
    ensures r == ScanRules(old(rules[..]), dataIn, dataOut)
    ensures r.Failure? ==> r.error.BadRule? && r.error.index < rules.Length
    ensures rules[..] == WrittenBack(old(rules[..]), dataIn, if r.Success? then rules.Length else r.error.index)
    ensures r.Success? ==> forall j :: 0 <= j < rules.Length ==> Accepted(rules[j], r.value, dataOut)
    ensures r.Success? && dataIn.Input? ==> r.value == InitialScan(dataIn)
  {
    ghost var orig := rules[..];
    var st := InitialScan(dataIn);
    assert orig[..0] == [];
    assert WrittenBack(orig, dataIn, 0) == orig;
    for i := 0 to rules.Length
      invariant ScanRules(orig[..i], dataIn, dataOut) == Success(st)
      invariant dataIn.Input? ==> st == InitialScan(dataIn)
      invariant rules[..] == WrittenBack(orig, dataIn, i)
      invariant forall j :: 0 <= j < i ==> Accepted(rules[j], st, dataOut)
    {
      assert rules[i] == orig[i];
      var step := CheckOne(i, dataIn, dataOut, rules, st);
      assert orig[..i + 1][..i] == orig[..i];
      if step.Failure? {
        ScanStops(orig, i, dataIn, dataOut, st);
        return step;
      }
      WrittenBackStep(orig, dataIn, i);
      forall j | 0 <= j < i
        ensures Accepted(rules[j], step.value, dataOut)
      {
        AcceptedKept(rules[j], i, orig[i], dataIn, dataOut, st);
      }
      st := step.value;
    }
    assert orig[..rules.Length] == orig;
    r := Success(st);
  }

  /** Lines 135-140 for one accepted rule. */
  method WriteOne(out: OutTable, plan: Plan, dataIn: InputArg, rule: Rule, pow: (real, real) -> real) returns (ok: bool)
    requires out.Valid() && out.shape == plan.shapeOut
    requires Ready(rule, plan) && rule.name.s in out.fields && (rule.arrayIn.a.mask.Some? ==> out.masked)
    modifies out
    ensures out.Valid()
    ensures ok <==> out.shape != []
    ensures out.Contents() == if ok then WriteRule(old(out.Contents()), out.masked, rule, plan, pow) else old(out.Contents())
  {
    // Line 138: a 0-dimensional column has no axis for `[:]`.
    if out.shape == [] {
      return false;
    }
    ok := true;
    var name, e, a := rule.name.s, rule.exponent.e, rule.arrayIn.a;
    var mask := ValueMask(a, plan.shapeOut);
    out.SetColumn(name, Rescale(a, plan.factor, e, plan.shapeOut, pow), mask);
    if dataIn.NoInput? && a.mask.Some? {
      assert Expand(a.mask.value, a.shape, plan.shapeOut) == mask;
      out.SetMask(name, Expand(a.mask.value, a.shape, plan.shapeOut));
    }
  }

  /** Lines 134-140 on the output table, for rules that line 81's loop accepted. */
  method WriteOutput(out: OutTable, plan: Plan, dataIn: InputArg, rules: array<Rule>, pow: (real, real) -> real)
    returns (ok: bool)
    requires out.Valid() && plan.Valid() && out.shape == plan.shapeOut
    requires forall j :: 0 <= j < rules.Length ==>
               Ready(rules[j], plan) && rules[j].name.s in out.fields && (rules[j].arrayIn.a.mask.Some? ==> out.masked)
    modifies out
    ensures out.Valid()
    ensures ok <==> rules.Length == 0 || out.shape != []
    ensures out.Contents() == if ok then WriteRules(old(out.Contents()), out.masked, plan, rules[..], pow) else old(out.Contents())
  {
    assert rules[..0] == [];
    for i := 0 to rules.Length
      invariant out.Valid()
      invariant i > 0 ==> out.shape != []
      invariant out.Contents() == WriteRules(old(out.Contents()), out.masked, plan, rules[..i], pow)
    {
      var written := WriteOne(out, plan, dataIn, rules[i], pow);
      if !written {
        return false;
      }
      WriteRulesStep(old(out.Contents()), out.masked, plan, rules[..], pow, i);
    }
    assert rules[..rules.Length] == rules[..];
    ok := true;
  }

  lemma WriteRulesStep(c: Content, masked: bool, plan: Plan, rules: seq<Rule>, pow: (real, real) -> real, i: nat)
    requires i < |rules|
    ensures WriteRules(c, masked, plan, rules[..i + 1], pow)
            == WriteRule(WriteRules(c, masked, plan, rules[..i], pow), masked, rules[i], plan, pow)
  {
    assert rules[..i + 1][..i] == rules[..i];
  }

  /** Lines 115-127: the output shape, then a new output table or the checks on the caller's. */
  method AllocateOut(st: Scan, factor: NdArray, dataOut: OutputArg) returns (r: Result<(Plan, OutTable), Error>)
    requires !dataOut.OutputNotArray? && factor.Valid()
    requires dataOut.Output? ==> dataOut.table.Valid()
    ensures r.Failure? <==> Allocate(st, factor, dataOut).Failure?
    ensures r.Failure? ==> r.error == Allocate(st, factor, dataOut).error
    ensures r.Success? ==>
              var (plan, out) := r.value;
              && plan == Allocate(st, factor, dataOut).value && plan.Valid()
              && out.Valid() && out.shape == plan.shapeOut
              && (plan.maskedIn ==> out.masked)
              && (dataOut.Output? ==> out == dataOut.table)
              && (dataOut.NoOutput? ==> fresh(out) && out.fields == plan.dtype && out.masked == plan.maskedIn
                                        && out.Contents() == Blank(plan.shapeOut, plan.dtype, plan.maskedIn))
  {
    if st.shapeIn.None? {
      return Failure(NoInputShape);
    }
    var shapeOut := Broadcast(st.shapeIn.value, factor.shape);
    if shapeOut.None? {
      return Failure(OutputShapes);
    }
    var plan := Plan(factor, st.shapeIn.value, shapeOut.value, st.maskedIn, st.dtype);
    BroadcastOperands(st.shapeIn.value, factor.shape);
    var out: OutTable;
    if dataOut.Output? {
      out := dataOut.table;
      if st.maskedIn && !out.masked {
        return Failure(MaskDiscarded);
      }
      if out.shape != shapeOut.value {
        return Failure(OutShapeMismatch);
      }
    } else {
      if !NoDuplicates(st.dtype) {
        return Failure(DuplicateField);
      }
      out := new OutTable.Empty(shapeOut.value, st.dtype, st.maskedIn);
    }
    return Success((plan, out));
  }

  /** Lines 129-140: copy `data_in`, then write the ruled columns. */
  method Fill(out: OutTable, plan: Plan, dataIn: InputArg, rules: array<Rule>, pow: (real, real) -> real)
    returns (ok: bool)
    requires out.Valid() && plan.Valid() && out.shape == plan.shapeOut && (plan.maskedIn ==> out.masked)
    requires dataIn.Input? ==> dataIn.records.Valid() && plan.shapeIn == dataIn.records.shape
    requires forall j :: 0 <= j < rules.Length ==>
               Accepted(rules[j], Scan(Some(plan.shapeIn), plan.dtype, plan.maskedIn), NoOutput)
               && rules[j].name.s in out.fields
    modifies out
    ensures out.Valid()
    ensures ok <==> rules.Length == 0 || out.shape != []
    ensures out.Contents() == if ok then Written(old(out.Contents()), out.masked, plan, dataIn, rules[..], pow)
                              else Copied(old(out.Contents()), out.masked, plan, dataIn)
  {
    // Lines 129-132.
    if dataIn.Input? {
      out.Assign(dataIn.records);
    }
    // Lines 134-140.
    ok := WriteOutput(out, plan, dataIn, rules, pow);
  }

  /** An error before line 81's loop leaves the rules as they were. */
  lemma RulesAfterNone(rules: seq<Rule>, dataIn: InputArg, e: Error)
    requires e.BeforeRules()
    ensures RulesAfter(rules, dataIn, Failure(e)) == rules
  {
    assert forall j :: 0 <= j < |rules| ==> RulesAfter(rules, dataIn, Failure(e))[j] == rules[j];
  }

  /** Lines 115-142, once line 81's loop accepted every rule. */
  method Finish(st: Scan, factor: NdArray, dataIn: InputArg, dataOut: OutputArg, rules: array<Rule>,
                pow: (real, real) -> real)
    returns (result: Result<OutTable, Error>)
    requires factor.Valid() && !dataOut.OutputNotArray?
    requires dataIn.Input? ==> dataIn.records.Valid() && st == InitialScan(dataIn)
    requires dataOut.Output? ==> dataOut.table.Valid()
    requires forall j :: 0 <= j < rules.Length ==> Accepted(rules[j], st, dataOut)
    modifies dataOut.Objects()
    ensures var o := Outcome(Allocate(st, factor, dataOut), rules.Length);
            (result.Failure? <==> o.Failure?) && (o.Failure? ==> result.error == o.error)
    ensures Allocate(st, factor, dataOut).Failure? && dataOut.Output? ==> unchanged(dataOut.table)
    ensures Allocate(st, factor, dataOut).Success? && result.Failure? && dataOut.Output? ==>
              && dataOut.table.Valid()
              && dataOut.table.Contents()
                 == Copied(old(dataOut.table.Contents()), dataOut.table.masked, Allocate(st, factor, dataOut).value, dataIn)
    ensures result.Success? && dataOut.Output? ==>
              var plan := Allocate(st, factor, dataOut).value;
              && result.value == dataOut.table && result.value.Valid()
              && result.value.Contents() == Written(old(dataOut.table.Contents()), result.value.masked, plan, dataIn, rules[..], pow)
    ensures result.Success? && dataOut.NoOutput? ==>
              var plan := Allocate(st, factor, dataOut).value;
              && fresh(result.value) && result.value.Valid()
              && result.value.shape == plan.shapeOut && result.value.fields == plan.dtype
              && result.value.masked == plan.maskedIn
              && result.value.Contents() == Written(Blank(plan.shapeOut, plan.dtype, plan.maskedIn), plan.maskedIn, plan, dataIn, rules[..], pow)
  {
    // Lines 115-127.
    var alloc := AllocateOut(st, factor, dataOut);
    if alloc.Failure? {
      return Failure(alloc.error);
    }
    var (plan, out) := alloc.value;
    assert st == Scan(Some(plan.shapeIn), plan.dtype, plan.maskedIn);
    // Lines 129-140.
    var ok := Fill(out, plan, dataIn, rules, pow);
    if !ok {
      return Failure(ScalarColumn);
    }
    return Success(out);
  }

  /** Lines 72-142, once the redshift factor and the argument types are accepted. */
  method Apply(factor: NdArray, dataIn: InputArg, dataOut: OutputArg, rules: array<Rule>, pow: (real, real) -> real)
    returns (result: Result<OutTable, Error>)
    requires factor.Valid() && !dataIn.InputNotArray? && !dataOut.OutputNotArray?
    requires dataIn.Input? ==> dataIn.records.Valid()
    requires dataOut.Output? ==> dataOut.table.Valid()
    requires forall j :: 0 <= j < rules.Length && rules[j].arrayIn.Array? ==> rules[j].arrayIn.a.Valid()
    modifies rules, dataOut.Objects()
    ensures var v := Checked(factor, dataIn, dataOut, old(rules[..]));
            var o := Outcome(v, rules.Length);
            && rules[..] == RulesAfter(old(rules[..]), dataIn, v)
            && (result.Failure? <==> o.Failure?)
            && (o.Failure? ==> result.error == o.error)
    ensures Checked(factor, dataIn, dataOut, old(rules[..])).Failure? && dataOut.Output? ==> unchanged(dataOut.table)
    ensures Checked(factor, dataIn, dataOut, old(rules[..])).Success? && result.Failure? && dataOut.Output? ==>
              && dataOut.table.Valid()
              && dataOut.table.Contents()
                 == Copied(old(dataOut.table.Contents()), dataOut.table.masked, Checked(factor, dataIn, dataOut, old(rules[..])).value, dataIn)
    ensures result.Success? && dataOut.Output? ==>
              var plan := Checked(factor, dataIn, dataOut, old(rules[..])).value;
              && result.value == dataOut.table && result.value.Valid()
              && result.value.Contents() == Written(old(dataOut.table.Contents()), result.value.masked, plan, dataIn, rules[..], pow)
    ensures result.Success? && dataOut.NoOutput? ==>
              var plan := Checked(factor, dataIn, dataOut, old(rules[..])).value;
              && fresh(result.value) && result.value.Valid()
              && result.value.shape == plan.shapeOut && result.value.fields == plan.dtype
              && result.value.masked == plan.maskedIn
              && result.value.Contents() == Written(Blank(plan.shapeOut, plan.dtype, plan.maskedIn), plan.maskedIn, plan, dataIn, rules[..], pow)
  {
    // Lines 72-113.
    var scan := CheckRules(dataIn, dataOut, rules);
    if scan.Failure? {
      return Failure(scan.error);
    }
    result := Finish(scan.value, factor, dataIn, dataOut, rules, pow);
  }

  /**
   * `transform(z_in, z_out, data_in, data_out, rules)`, lines 57-142.
   * `pow` is NumPy's elementwise `**` on floats.
   */
  method Transform(zIn: ZArg, zOut: ZArg, dataIn: InputArg, dataOut: OutputArg, rules: array<Rule>,
                   pow: (real, real) -> real)
    returns (result: Result<OutTable, Error>)
    requires zIn.Valid() && zOut.Valid()
    requires dataIn.Input? ==> dataIn.records.Valid()
    requires dataOut.Output? ==> dataOut.table.Valid()
    requires forall j :: 0 <= j < rules.Length && rules[j].arrayIn.Array? ==> rules[j].arrayIn.a.Valid()
    modifies rules, dataOut.Objects()
    ensures var v := Validate(zIn, zOut, dataIn, dataOut, old(rules[..]));
            var o := Outcome(v, rules.Length);
            && rules[..] == RulesAfter(old(rules[..]), dataIn, v)
            && (result.Failure? <==> o.Failure?)
            && (o.Failure? ==> result.error == o.error)
    ensures Validate(zIn, zOut, dataIn, dataOut, old(rules[..])).Failure? && dataOut.Output? ==> unchanged(dataOut.table)
    ensures Validate(zIn, zOut, dataIn, dataOut, old(rules[..])).Success? && result.Failure? && dataOut.Output? ==>
              && dataOut.table.Valid()
              && dataOut.table.Contents()
                 == Copied(old(dataOut.table.Contents()), dataOut.table.masked, Validate(zIn, zOut, dataIn, dataOut, old(rules[..])).value, dataIn)
    ensures result.Success? && dataOut.Output? ==>
              var plan := Validate(zIn, zOut, dataIn, dataOut, old(rules[..])).value;
              && result.value == dataOut.table && result.value.Valid()
              && result.value.Contents() == Written(old(dataOut.table.Contents()), result.value.masked, plan, dataIn, rules[..], pow)
    ensures result.Success? && dataOut.NoOutput? ==>
              var plan := Validate(zIn, zOut, dataIn, dataOut, old(rules[..])).value;
              && fresh(result.value) && result.value.Valid()
              && result.value.shape == plan.shapeOut && result.value.fields == plan.dtype
              && result.value.masked == plan.maskedIn
              && result.value.Contents() == Written(Blank(plan.shapeOut, plan.dtype, plan.maskedIn), plan.maskedIn, plan, dataIn, rules[..], pow)
  {
    ghost var before := rules[..];
    // Lines 57-65.
    var factor := RedshiftFactor(zIn, zOut);
    if factor.Failure? {
      RulesAfterNone(before, dataIn, factor.error);
      return Failure(factor.error);
    }
    // Lines 67-70.
    if dataIn.InputNotArray? {
      RulesAfterNone(before, dataIn, InvalidDataIn);
      return Failure(InvalidDataIn);
    }
    if dataOut.OutputNotArray? {
      RulesAfterNone(before, dataIn, InvalidDataOut);
      return Failure(InvalidDataOut);
    }
    assert Validate(zIn, zOut, dataIn, dataOut, before) == Checked(factor.value, dataIn, dataOut, before);
    result := Apply(factor.value, dataIn, dataOut, rules, pow);
  }
}

/**
 * The parameter-label rewriter: after the external library has generated a model's
 * parameters, each parameter's value is taken from the simulation configuration by parsing
 * its dotted label (`shapes.species_2.amplitude`, `rates.species_1`, `irf.width`, ...).
 */
module ParameterUpdate {
  import opened Wrappers
  import opened PyText
  import opened Schema

  /** A generated parameter: its label is fixed, its value is what the rewriter assigns. */
  datatype Parameter = Parameter(labelText: string, value: real)

  /** The exceptions the rewriter can raise. */
  datatype UpdateError =
    | InvalidSpeciesNumber(text: string)           // `int(...)` raises ValueError
    | MissingAttribute                             // `parts[2]` raises IndexError
    | SpeciesOutOfRange(index: int, length: nat)   // the list subscript raises IndexError

  const SHAPES_PREFIX := "shapes.species_"
  const RATES_PREFIX := "rates.species_"
  const IRF_PREFIX := "irf"

  /** The spectral attributes a `shapes` label can name, one list of the configuration each. */
  const SPECTRAL_ATTRIBUTES := {"amplitude", "location", "width", "skewness"}

  function SpectralColumn(p: SpectralParameters, attribute: string): seq<real>
    requires attribute in SPECTRAL_ATTRIBUTES
  {
    map["amplitude" := p.amplitude, "location" := p.location,
        "width" := p.width, "skewness" := p.skewness][attribute]
  }

  /** The 0-based list index a species number stands for: `int(text) - 1`. */
  function SpeciesIndex(text: string): Result<int, UpdateError> {
    match ParseInt(text)
    case None => Err(InvalidSpeciesNumber(text))
    case Some(n) => Ok(n - 1)
  }

  /** `xs[index]`, Python style. */
  function Select(xs: seq<real>, index: int): Result<real, UpdateError> {
    match PyIndex(xs, index)
    case None => Err(SpeciesOutOfRange(index, |xs|))
    case Some(v) => Ok(v)
  }

  /** If `p` has no separator, every piece that starts the string extends `p`. */
  lemma {:induction false} FirstPieceExtends(p: string, q: string, sep: char)
    requires sep !in p
    ensures p <= Split(p + q, sep)[0]
  {
    if p != [] {
      FirstPieceExtends(p[1..], q, sep);
      assert (p + q)[1..] == p[1..] + q;
    }
  }

  /** A `shapes.species_` label has a second dot-piece, and that piece has a second `_`-piece. */
  lemma ShapesLabelSplits(labelText: string)
    requires StartsWith(labelText, SHAPES_PREFIX)
    ensures |Split(labelText, '.')| >= 2
    ensures |Split(Split(labelText, '.')[1], '_')| >= 2
  {
    var rest := labelText[|SHAPES_PREFIX|..];
    assert labelText == "shapes" + ['.'] + ("species_" + rest);
    SplitAtFirst("shapes", '.', "species_" + rest);
    FirstPieceExtends("species_", rest, '.');
    assert Split(labelText, '.')[1][7] == '_';
  }

  /** A `rates.species_` label has a second `_`-piece. */
  lemma RatesLabelSplits(labelText: string)
    requires StartsWith(labelText, RATES_PREFIX)
    ensures |Split(labelText, '_')| >= 2
  {
    assert labelText[13] == '_';
  }

  /** The `shapes.species_` branch: parse the species number, then look at the attribute. */
  function ShapesValue(labelText: string, current: real, config: SimulationConfig): Result<real, UpdateError>
    requires StartsWith(labelText, SHAPES_PREFIX)
  {
    ShapesLabelSplits(labelText);
    var parts := Split(labelText, '.');
    var index :- SpeciesIndex(Split(parts[1], '_')[1]);
    if |parts| < 3 then Err(MissingAttribute)
    else AttributeValue(config.spectralParameters, parts[2], index, current)
  }

  /** The attribute test of the `shapes` branch; it has no final else, so other attributes keep the value. */
  function AttributeValue(spectral: SpectralParameters, attribute: string, index: int, current: real): Result<real, UpdateError> {
    if attribute == "amplitude" then Select(spectral.amplitude, index)
    else if attribute == "location" then Select(spectral.location, index)
    else if attribute == "width" then Select(spectral.width, index)
    else if attribute == "skewness" then Select(spectral.skewness, index)
    else Ok(current)
  }

  /** The attribute test selects from the attribute's own list, and keeps the value for any other attribute. */
  lemma AttributeValueColumn(spectral: SpectralParameters, attribute: string, index: int, current: real)
    ensures attribute in SPECTRAL_ATTRIBUTES ==> AttributeValue(spectral, attribute, index, current) == Select(SpectralColumn(spectral, attribute), index)
    ensures attribute !in SPECTRAL_ATTRIBUTES ==> AttributeValue(spectral, attribute, index, current) == Ok(current)
  {
  }

  /** The `rates.species_` branch: the decay rate the species number names. */
  function RatesValue(labelText: string, config: SimulationConfig): Result<real, UpdateError>
    requires StartsWith(labelText, RATES_PREFIX)
  {
    RatesLabelSplits(labelText);
    var index :- SpeciesIndex(Split(labelText, '_')[1]);
    Select(config.kineticParameters.decayRates, index)
  }

  /** The `irf` branch: "width" is tested first, "center" second, so "center" wins. */
  function IrfValue(labelText: string, current: real, config: SimulationConfig): real {
    var afterWidth := if Contains(labelText, "width") then config.irf.width else current;
    if Contains(labelText, "center") then config.irf.center else afterWidth
  }

  /** The new value of a parameter with the given label and current value. */
  function NewValue(labelText: string, current: real, config: SimulationConfig): Result<real, UpdateError> {
    if StartsWith(labelText, SHAPES_PREFIX) then ShapesValue(labelText, current, config)
    else if StartsWith(labelText, RATES_PREFIX) then RatesValue(labelText, config)
    else if StartsWith(labelText, IRF_PREFIX) && config.settings.addGaussianIrf then Ok(IrfValue(labelText, current, config))
    else Ok(current)
  }

  /** One step of the loop: the parameter with its value reassigned, or the exception raised. */
  function Rewrite(p: Parameter, config: SimulationConfig): (r: Result<Parameter, UpdateError>)
    ensures r.Ok? ==> r.value.labelText == p.labelText
  {
    var v :- NewValue(p.labelText, p.value, config);
    Ok(p.(value := v))
  }

  /**
   * The first `k` parameters of `before` have been rewritten successfully into `after`,
   * and the others are as they were.
   */
  ghost predicate RewrittenUpTo(before: seq<Parameter>, after: seq<Parameter>, k: nat, config: SimulationConfig)
    requires k <= |before|
  {
    && |after| == |before|
    && (forall i :: 0 <= i < k ==> Rewrite(before[i], config).Ok? && after[i] == Rewrite(before[i], config).value)
    && (forall i :: k <= i < |before| ==> after[i] == before[i])
  }

  /**
   * Rewrites every parameter in place, in order, and returns the same collection. An exception
   * stops the loop: the parameters before the failing one keep their new values and the rest
   * keep their old ones.
   */
  method UpdateParameterValues(parameters: array<Parameter>, config: SimulationConfig)
    returns (r: Result<array<Parameter>, UpdateError>)
    modifies parameters
    ensures forall i :: 0 <= i < parameters.Length ==> parameters[i].labelText == old(parameters[i].labelText)
    ensures r.Ok? <==> forall i :: 0 <= i < parameters.Length ==> Rewrite(old(parameters[i]), config).Ok?
    ensures r.Ok? ==> r.value == parameters && RewrittenUpTo(old(parameters[..]), parameters[..], parameters.Length, config)
    ensures r.Err? ==> exists k :: 0 <= k < parameters.Length && Rewrite(old(parameters[k]), config) == Err(r.error)
                                   && RewrittenUpTo(old(parameters[..]), parameters[..], k, config)
  {
    var i := 0;
    while i < parameters.Length
      invariant 0 <= i <= parameters.Length
      invariant RewrittenUpTo(old(parameters[..]), parameters[..], i, config)
    {
      var param := parameters[i];
      var value := NewValue(param.labelText, param.value, config);
      if value.Err? {
        assert Rewrite(old(parameters[i]), config) == Err(value.error);
        return Err(value.error);
      }
      parameters[i] := param.(value := value.value);
      i := i + 1;
    }
    return Ok(parameters);
  }

  // ---------------------------------------------------------------------------------------
  // How labels are routed, stated for labels built from a species number and an attribute.

  /** `shapes.species_<n>.<attribute>` */
  function ShapeLabel(n: int, attribute: string): string {
    SHAPES_PREFIX + IntText(n) + "." + attribute
  }

  /** `rates.species_<n>` */
  function RateLabel(n: int): string {
    RATES_PREFIX + IntText(n)
  }

  /** A `shapes.species_` label splits on `.` into "shapes" and the pieces of what follows it. */
  lemma ShapesPrefixPieces(rest: string)
    ensures Split(SHAPES_PREFIX + rest, '.') == ["shapes"] + Split("species_" + rest, '.')
  {
    assert SHAPES_PREFIX == "shapes" + ['.'] + "species_";
    assert SHAPES_PREFIX + rest == "shapes" + ['.'] + ("species_" + rest);
    SplitAtFirst("shapes", '.', "species_" + rest);
  }

  /** `species_<text>` splits on `_` into "species" and the text. */
  lemma SpeciesPieces(text: string)
    requires '_' !in text
    ensures Split("species_" + text, '_') == ["species", text]
  {
    assert "species_" == "species" + ['_'];
    assert "species_" + text == "species" + ['_'] + text;
    SplitAtFirst("species", '_', text);
    SplitWithout(text, '_');
  }

  /** `species_<text>.<attribute>` splits on `.` into the species piece and the attribute's pieces. */
  lemma SpeciesAttributePieces(text: string, attribute: string)
    requires '.' !in text
    ensures Split("species_" + (text + ['.'] + attribute), '.') == ["species_" + text] + Split(attribute, '.')
  {
    assert "species_" + (text + ['.'] + attribute) == ("species_" + text) + ['.'] + attribute;
    SplitAtFirst("species_" + text, '.', attribute);
  }

  /** How a `shapes` label built from a species text and an attribute splits on `.`. */
  lemma ShapeLabelPieces(text: string, attribute: string)
    requires '.' !in text
    ensures Split(SHAPES_PREFIX + text + "." + attribute, '.') == ["shapes", "species_" + text] + Split(attribute, '.')
  {
    var rest := text + ['.'] + attribute;
    assert SHAPES_PREFIX + text + "." + attribute == SHAPES_PREFIX + rest;
    ShapesPrefixPieces(rest);
    SpeciesAttributePieces(text, attribute);
    assert ["shapes"] + (["species_" + text] + Split(attribute, '.')) == ["shapes", "species_" + text] + Split(attribute, '.');
  }

  /** The pieces of `shapes.species_<n>.<attribute>` when the attribute has no dot. */
  lemma ShapeLabelParts(n: int, attribute: string)
    requires '.' !in attribute
    ensures StartsWith(ShapeLabel(n, attribute), SHAPES_PREFIX)
    ensures Split(ShapeLabel(n, attribute), '.') == ["shapes", "species_" + IntText(n), attribute]
    ensures SpeciesIndex(Split("species_" + IntText(n), '_')[1]) == Ok(n - 1)
  {
    ShapeLabelPieces(IntText(n), attribute);
    SpeciesPieces(IntText(n));
    SplitWithout(attribute, '.');
    ParseIntText(n);
  }

  /**
   * A `shapes.species_<n>.<attribute>` parameter selects index `n - 1` of the attribute's
   * list when the attribute is one of the four, and keeps its value otherwise.
   */
  lemma ShapeLabelValue(n: int, attribute: string, value: real, config: SimulationConfig)
    requires '.' !in attribute
    ensures attribute in SPECTRAL_ATTRIBUTES ==>
              NewValue(ShapeLabel(n, attribute), value, config) == Select(SpectralColumn(config.spectralParameters, attribute), n - 1)
    ensures attribute !in SPECTRAL_ATTRIBUTES ==> NewValue(ShapeLabel(n, attribute), value, config) == Ok(value)
  {
    var labelText := ShapeLabel(n, attribute);
    assert ShapesValue(labelText, value, config) == AttributeValue(config.spectralParameters, attribute, n - 1, value) by {
      ShapeLabelParts(n, attribute);
      var parts := Split(labelText, '.');
      assert parts[1] == "species_" + IntText(n);
      assert SpeciesIndex(Split(parts[1], '_')[1]) == Ok(n - 1);
      assert parts[2] == attribute && |parts| == 3;
    }
    assert StartsWith(labelText, SHAPES_PREFIX) by { ShapeLabelParts(n, attribute); }
    AttributeValueColumn(config.spectralParameters, attribute, n - 1, value);
  }

  /** `shapes.species_N.<attribute>` takes entry N (counting from 1) of the attribute's list. */
  lemma ShapesRoute(n: int, attribute: string, value: real, config: SimulationConfig)
    requires attribute in SPECTRAL_ATTRIBUTES
    requires 1 <= n <= |SpectralColumn(config.spectralParameters, attribute)|
    ensures Rewrite(Parameter(ShapeLabel(n, attribute), value), config)
         == Ok(Parameter(ShapeLabel(n, attribute), SpectralColumn(config.spectralParameters, attribute)[n - 1]))
  {
    ShapeLabelValue(n, attribute, value, config);
  }

  /**
   * A species number of 0 or below is not rejected: Python's negative subscripts count from
   * the end, so `species_0` takes the last entry.
   */
  lemma ShapesNonPositiveSpeciesWraps(n: int, attribute: string, value: real, config: SimulationConfig)
    requires attribute in SPECTRAL_ATTRIBUTES
    requires 1 - |SpectralColumn(config.spectralParameters, attribute)| <= n <= 0
    ensures (var column := SpectralColumn(config.spectralParameters, attribute);
             Rewrite(Parameter(ShapeLabel(n, attribute), value), config)
             == Ok(Parameter(ShapeLabel(n, attribute), column[|column| + n - 1])))
  {
    ShapeLabelValue(n, attribute, value, config);
  }

  /** A species number outside the list raises IndexError. */
  lemma ShapesOutOfRange(n: int, attribute: string, value: real, config: SimulationConfig)
    requires attribute in SPECTRAL_ATTRIBUTES
    requires (var length := |SpectralColumn(config.spectralParameters, attribute)|; n > length || n <= -length)
    ensures Rewrite(Parameter(ShapeLabel(n, attribute), value), config)
         == Err(SpeciesOutOfRange(n - 1, |SpectralColumn(config.spectralParameters, attribute)|))
  {
    ShapeLabelValue(n, attribute, value, config);
  }

  /**
   * Any other attribute leaves the value as it was, whatever the species number, since the
   * attribute test has no final else and the index is never used.
   */
  lemma ShapesOtherAttribute(n: int, attribute: string, value: real, config: SimulationConfig)
    requires '.' !in attribute && attribute !in SPECTRAL_ATTRIBUTES
    ensures Rewrite(Parameter(ShapeLabel(n, attribute), value), config) == Ok(Parameter(ShapeLabel(n, attribute), value))
  {
    ShapeLabelValue(n, attribute, value, config);
  }

  /** The species number is parsed before the attribute is looked at: bad text always raises. */
  lemma ShapesBadSpeciesNumber(text: string, attribute: string, value: real, config: SimulationConfig)
    requires '.' !in text && '_' !in text && ParseInt(text).None?
    ensures Rewrite(Parameter(SHAPES_PREFIX + text + "." + attribute, value), config) == Err(InvalidSpeciesNumber(text))
  {
    ShapeLabelPieces(text, attribute);
    SpeciesPieces(text);
  }

  /** How a `shapes` label that ends after the species text splits. */
  lemma ShapeLabelPiecesNoAttribute(text: string)
    requires '.' !in text && '_' !in text
    ensures Split(SHAPES_PREFIX + text, '.') == ["shapes", "species_" + text]
    ensures Split("species_" + text, '_') == ["species", text]
  {
    ShapesPrefixPieces(text);
    SplitWithout("species_" + text, '.');
    SpeciesPieces(text);
  }

  /** A `shapes` label with no attribute piece raises IndexError. */
  lemma ShapesMissingAttribute(n: int, value: real, config: SimulationConfig)
    ensures Rewrite(Parameter(SHAPES_PREFIX + IntText(n), value), config) == Err(MissingAttribute)
  {
    var labelText := SHAPES_PREFIX + IntText(n);
    ShapeLabelPiecesNoAttribute(IntText(n));
    ParseIntText(n);
    assert StartsWith(labelText, SHAPES_PREFIX);
    var parts := Split(labelText, '.');
    assert |parts| == 2 && parts[1] == "species_" + IntText(n);
    assert SpeciesIndex(Split(parts[1], '_')[1]) == Ok(n - 1);
    assert ShapesValue(labelText, value, config) == Err(MissingAttribute);
  }

  /** The pieces of `rates.species_<text>` on `_`. */
  lemma RateLabelPieces(text: string)
    requires '_' !in text
    ensures Split(RATES_PREFIX + text, '_') == ["rates.species", text]
  {
    assert RATES_PREFIX + text == "rates.species" + ['_'] + text;
    SplitAtFirst("rates.species", '_', text);
    SplitWithout(text, '_');
  }

  /** `rates.species_<n>` selects entry `n - 1` of the decay rates, Python style. */
  lemma RateLabelValue(n: int, value: real, config: SimulationConfig)
    ensures NewValue(RateLabel(n), value, config) == Select(config.kineticParameters.decayRates, n - 1)
  {
    RateLabelPieces(IntText(n));
    ParseIntText(n);
    assert StartsWith(RateLabel(n), RATES_PREFIX);
    assert !StartsWith(RateLabel(n), SHAPES_PREFIX) by { assert RateLabel(n)[0] != SHAPES_PREFIX[0]; }
    assert SpeciesIndex(Split(RateLabel(n), '_')[1]) == Ok(n - 1);
    assert RatesValue(RateLabel(n), config) == Select(config.kineticParameters.decayRates, n - 1);
  }

  /** `rates.species_N` takes decay rate N (counting from 1). */
  lemma RatesRoute(n: int, value: real, config: SimulationConfig)
    requires 1 <= n <= |config.kineticParameters.decayRates|
    ensures Rewrite(Parameter(RateLabel(n), value), config)
         == Ok(Parameter(RateLabel(n), config.kineticParameters.decayRates[n - 1]))
  {
    RateLabelValue(n, value, config);
  }

  /** `rates.species_0` and below count from the end of the decay rates. */
  lemma RatesNonPositiveSpeciesWraps(n: int, value: real, config: SimulationConfig)
    requires 1 - |config.kineticParameters.decayRates| <= n <= 0
    ensures (var rates := config.kineticParameters.decayRates;
             Rewrite(Parameter(RateLabel(n), value), config) == Ok(Parameter(RateLabel(n), rates[|rates| + n - 1])))
  {
    RateLabelValue(n, value, config);
  }

  /** A rate species number outside the list raises IndexError. */
  lemma RatesOutOfRange(n: int, value: real, config: SimulationConfig)
    requires (var length := |config.kineticParameters.decayRates|; n > length || n <= -length)
    ensures Rewrite(Parameter(RateLabel(n), value), config)
         == Err(SpeciesOutOfRange(n - 1, |config.kineticParameters.decayRates|))
  {
    RateLabelValue(n, value, config);
  }

  /** Text after the `_` that `int()` rejects raises ValueError. */
  lemma RatesBadSpeciesNumber(text: string, value: real, config: SimulationConfig)
    requires '_' !in text && ParseInt(text).None?
    ensures Rewrite(Parameter(RATES_PREFIX + text, value), config) == Err(InvalidSpeciesNumber(text))
  {
    RateLabelPieces(text);
  }

  /** Without the Gaussian-IRF flag an `irf` label keeps its value. */
  lemma IrfWithoutFlag(labelText: string, value: real, config: SimulationConfig)
    requires StartsWith(labelText, IRF_PREFIX) && !config.settings.addGaussianIrf
    ensures Rewrite(Parameter(labelText, value), config) == Ok(Parameter(labelText, value))
  {
  }

  /**
   * With the flag, an `irf` label takes the IRF centre if it mentions "center" (even when it
   * also mentions "width", since the centre is assigned last), else the IRF width if it
   * mentions "width", else keeps its value.
   */
  lemma IrfRoute(labelText: string, value: real, config: SimulationConfig)
    requires StartsWith(labelText, IRF_PREFIX) && config.settings.addGaussianIrf
    ensures Contains(labelText, "center") ==> Rewrite(Parameter(labelText, value), config) == Ok(Parameter(labelText, config.irf.center))
    ensures !Contains(labelText, "center") && Contains(labelText, "width")
            ==> Rewrite(Parameter(labelText, value), config) == Ok(Parameter(labelText, config.irf.width))
    ensures !Contains(labelText, "center") && !Contains(labelText, "width")
            ==> Rewrite(Parameter(labelText, value), config) == Ok(Parameter(labelText, value))
  {
  }

  /** A label with none of the three prefixes keeps its value. */
  lemma OtherLabelUnchanged(labelText: string, value: real, config: SimulationConfig)
    requires !StartsWith(labelText, SHAPES_PREFIX) && !StartsWith(labelText, RATES_PREFIX)
    requires !StartsWith(labelText, IRF_PREFIX)
    ensures Rewrite(Parameter(labelText, value), config) == Ok(Parameter(labelText, value))
  {
  }

  /** The configuration of the repository's end-to-end test: two species, Gaussian IRF on. */
  const TEST_CONFIG := SimulationConfig(
    KineticParameters([0.1, 0.2]),
    SpectralParameters([1.0, 2.0], [400.0, 500.0], [10.0, 20.0], [0.0, 0.0]),
    Settings(0.01, 42, true, false),
    Irf(0.0, 0.1))

  /** The rate of the second species goes to `rates.species_2`. */
  lemma ExampleRate()
    ensures Rewrite(Parameter("rates.species_2", 1.0), TEST_CONFIG) == Ok(Parameter("rates.species_2", 0.2))
  {
    assert IntText(2) == "2";
    assert RateLabel(2) == "rates.species_2";
    RatesRoute(2, 1.0, TEST_CONFIG);
  }

  /** The location of the first species goes to `shapes.species_1.location`. */
  lemma ExampleShape()
    ensures Rewrite(Parameter("shapes.species_1.location", 1.0), TEST_CONFIG)
            == Ok(Parameter("shapes.species_1.location", 400.0))
  {
    assert IntText(1) == "1";
    assert ShapeLabel(1, "location") == "shapes.species_1.location";
    ShapesRoute(1, "location", 1.0, TEST_CONFIG);
  }

  /** With the IRF on, `irf.width` takes the configured width. */
  lemma ExampleIrf()
    ensures Rewrite(Parameter("irf.width", 1.0), TEST_CONFIG) == Ok(Parameter("irf.width", 0.1))
  {
    assert StartsWith("irf.width", IRF_PREFIX);
    assert Contains("irf.width", "width");
    NotContainsMissingFirst("irf.width", "center");
    IrfRoute("irf.width", 1.0, TEST_CONFIG);
  }
}

/**
 * The orchestration in `utils.py`: generate the model and write its sanitised model file,
 * generate and rewrite the parameters and write them, then simulate and write the dataset.
 * The external library's calls are opaque: what they produce (the model document and the
 * generated parameters) is passed in, and what they are asked to do is recorded as steps.
 */
module Pipeline {
  import opened Wrappers
  import opened PyText
  import opened Schema
  import opened ParameterUpdate
  import opened Sanitizer

  const SEQUENTIAL_GENERATOR := "spectral_decay_sequential"
  const PARALLEL_GENERATOR := "spectral_decay_parallel"
  const DATASET_LABEL := "dataset_1"

  /** The generator the model is built with: sequential exactly when the settings ask for it. */
  function GeneratorName(settings: Settings): (name: string)
    ensures name == SEQUENTIAL_GENERATOR <==> settings.useSequentialScheme
    ensures name == PARALLEL_GENERATOR <==> !settings.useSequentialScheme
  {
    if settings.useSequentialScheme then SEQUENTIAL_GENERATOR else PARALLEL_GENERATOR
  }

  /** One compartment per decay rate. */
  function NrCompartments(config: SimulationConfig): nat {
    |config.kineticParameters.decayRates|
  }

  /** Noise is added exactly when its standard deviation is non-zero. */
  function NoiseEnabled(settings: Settings): bool {
    settings.stdevNoise != 0.0
  }

  /** The arguments of the model generator call. */
  datatype ModelRequest = ModelRequest(generatorName: string, nrCompartments: nat, irf: bool)

  /** The arguments of the simulation call. */
  datatype SimulationRequest = SimulationRequest(datasetLabel: string, noise: bool, noiseStdDev: real, noiseSeed: int)

  /** A file the pipeline writes, with what it is written from. */
  datatype Step =
    | ModelFileWritten(model: ModelRequest, fileName: string, document: Value)
    | ParameterFileWritten(fileName: string, parameters: seq<Parameter>)
    | DataFileWritten(simulation: SimulationRequest, parameters: seq<Parameter>, fileName: string)

  function ModelRequestFor(config: SimulationConfig, nrCompartments: nat): ModelRequest {
    ModelRequest(GeneratorName(config.settings), nrCompartments, config.settings.addGaussianIrf)
  }

  function SimulationRequestFor(settings: Settings): SimulationRequest {
    SimulationRequest(DATASET_LABEL, NoiseEnabled(settings), settings.stdevNoise, settings.seed)
  }

  /**
   * The model file: the document the library saves for the generated model, loaded back,
   * sanitised and written under the requested name.
   */
  function ModelFileStep(config: SimulationConfig, nrCompartments: nat, fileName: string, document: Value): (step: Step)
    ensures step.ModelFileWritten? && step.fileName == fileName
    ensures step.model.generatorName == GeneratorName(config.settings)
    ensures step.model.irf == config.settings.addGaussianIrf
    ensures step.document == Sanitize(document)
  {
    ModelFileWritten(ModelRequestFor(config, nrCompartments), fileName, Sanitize(document))
  }

  /** The data file: a simulation of the rewritten parameters, with noise only when its deviation is non-zero. */
  function DataFileStep(parameters: seq<Parameter>, settings: Settings, fileName: string): (step: Step)
    ensures step.DataFileWritten? && step.parameters == parameters && step.fileName == fileName
    ensures step.simulation.noise <==> settings.stdevNoise != 0.0
    ensures step.simulation.noiseStdDev == settings.stdevNoise && step.simulation.noiseSeed == settings.seed
  {
    DataFileWritten(SimulationRequestFor(settings), parameters, fileName)
  }

  /**
   * The model is generated with one compartment per decay rate, and `rates.species_N`
   * resolves (for N from 1) exactly for the compartments the model has.
   */
  lemma CompartmentsMatchRates(config: SimulationConfig, n: int, value: real)
    requires n >= 1
    ensures Rewrite(Parameter(RateLabel(n), value), config).Ok? <==> n <= ModelRequestFor(config, NrCompartments(config)).nrCompartments
  {
    if n <= NrCompartments(config) {
      RatesRoute(n, value, config);
    } else {
      RatesOutOfRange(n, value, config);
    }
  }

  /** When the model is generated without an IRF, `irf` parameters keep their generated values. */
  lemma IrfParametersFollowModel(config: SimulationConfig, nrCompartments: nat, labelText: string, value: real)
    requires StartsWith(labelText, IRF_PREFIX) && !ModelRequestFor(config, nrCompartments).irf
    ensures Rewrite(Parameter(labelText, value), config) == Ok(Parameter(labelText, value))
  {
    IrfWithoutFlag(labelText, value, config);
  }

  /**
   * The whole run. The parameters are rewritten in place; if the rewrite raises, only the
   * model file has been written and the exception is returned.
   */
  method GenerateModelParameterAndDataFiles(
    config: SimulationConfig, modelFileName: string, parameterFileName: string, dataFileName: string,
    modelDocument: Value, parameters: array<Parameter>)
    returns (steps: seq<Step>, failure: Option<UpdateError>)
    modifies parameters
    ensures |steps| >= 1 && steps[0] == ModelFileStep(config, NrCompartments(config), modelFileName, modelDocument)
    ensures failure.None? <==> forall i :: 0 <= i < parameters.Length ==> Rewrite(old(parameters[i]), config).Ok?
    ensures failure.None? ==>
              && RewrittenUpTo(old(parameters[..]), parameters[..], parameters.Length, config)
              && steps == [steps[0], ParameterFileWritten(parameterFileName, parameters[..]),
                           DataFileStep(parameters[..], config.settings, dataFileName)]
    ensures failure.Some? ==>
              && steps == [steps[0]]
              && exists k :: 0 <= k < parameters.Length && Rewrite(old(parameters[k]), config) == Err(failure.value)
                             && RewrittenUpTo(old(parameters[..]), parameters[..], k, config)
  {
    var nrCompartments := NrCompartments(config);
    steps := [ModelFileStep(config, nrCompartments, modelFileName, modelDocument)];
    var updated := UpdateParameterValues(parameters, config);
    if updated.Err? {
      return steps, Some(updated.error);
    }
    steps := steps + [ParameterFileWritten(parameterFileName, parameters[..])];
    steps := steps + [DataFileStep(parameters[..], config.settings, dataFileName)];
    failure := None;
  }
}

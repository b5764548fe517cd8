/**
 * The orchestration in `io.py`, a second copy of the pipeline: it derives the generator
 * name, compartment count and noise flag in the same way and sanitises the model file with
 * the same function, but writes and simulates the generated parameters without rewriting them.
 */
module Io {
  import opened Schema
  import opened ParameterUpdate
  import opened Sanitizer
  import opened Pipeline

  function GenerateModelFile(config: SimulationConfig, nrCompartments: nat, fileName: string, document: Value): Step {
    var generatorName := if config.settings.useSequentialScheme then "spectral_decay_sequential" else "spectral_decay_parallel";
    ModelFileWritten(ModelRequest(generatorName, nrCompartments, config.settings.addGaussianIrf), fileName, Sanitize(document))
  }

  function GenerateDataFile(parameters: seq<Parameter>, settings: Settings, fileName: string): Step {
    var noise := if settings.stdevNoise == 0.0 then false else true;
    DataFileWritten(SimulationRequest("dataset_1", noise, settings.stdevNoise, settings.seed), parameters, fileName)
  }

  /**
   * The three files of this copy: the same model file and the same simulation request as the
   * `utils.py` pipeline, with the generated parameters written and simulated as generated.
   */
  function GenerateModelParameterAndDataFiles(
    config: SimulationConfig, modelFileName: string, parameterFileName: string, dataFileName: string,
    modelDocument: Value, generated: seq<Parameter>): (steps: seq<Step>)
    ensures steps == [ModelFileStep(config, NrCompartments(config), modelFileName, modelDocument),
                      ParameterFileWritten(parameterFileName, generated),
                      DataFileStep(generated, config.settings, dataFileName)]
  {
    var nrCompartments := |config.kineticParameters.decayRates|;
    [GenerateModelFile(config, nrCompartments, modelFileName, modelDocument),
     ParameterFileWritten(parameterFileName, generated),
     GenerateDataFile(generated, config.settings, dataFileName)]
  }
}

/**
 * The simulation configuration records that the label rewriter and the pipeline read.
 * Floating-point values are modelled as reals: they are only copied, never computed with.
 */
module Schema {

  /** One decay rate per species (compartment). */
  datatype KineticParameters = KineticParameters(decayRates: seq<real>)

  /** One entry per species in each list; nothing forces the lists to have equal lengths. */
  datatype SpectralParameters = SpectralParameters(
    amplitude: seq<real>,
    location: seq<real>,
    width: seq<real>,
    skewness: seq<real>)

  datatype Settings = Settings(
    stdevNoise: real,
    seed: int,
    addGaussianIrf: bool,
    useSequentialScheme: bool)

  /** The Gaussian instrument response function. */
  datatype Irf = Irf(center: real, width: real)

  /** The whole configuration; the coordinate axes it also carries are not part of this model. */
  datatype SimulationConfig = SimulationConfig(
    kineticParameters: KineticParameters,
    spectralParameters: SpectralParameters,
    settings: Settings,
    irf: Irf)
}

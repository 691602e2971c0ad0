/** The profiled attributes that clustering compares, and its pinned configuration. */
module Attributes {
  import opened Wrappers

  datatype Level = Mandatory | Conditional | Optional

  datatype Kind = Length | Pattern | Range | Format | CrossField | Custom

  datatype Constraint = Constraint(kind: Kind, expression: string)

  datatype Attribute = Attribute(
    id: string, region: string, localName: string, dataType: string, level: Level, evidenceTier: int,
    enumeration: seq<string>, constraints: seq<Constraint>, evidenceRefs: seq<string>,
    tokens: seq<string>, headNoun: string, parentPath: Option<string>, siblingNames: seq<string>)

  datatype Config = Config(
    weights: map<string, real>,
    typeCompatibility: seq<(string, string, real)>,
    linkThreshold: real,
    reviewBandLow: real,
    upper: string -> string,                       // str.upper
    sqrt: real -> real,                            // x ** 0.5
    readBound: string -> Option<(string, real)>)   // the minimum=/maximum=/minLength=/maxLength= pattern

  function Weight(cfg: Config, name: string): real { if name in cfg.weights then cfg.weights[name] else 0.0 }

  /** Every score in the type table lies in [0, 1], as the settings schema demands. */
  ghost predicate TableInRange(cfg: Config) {
    forall i :: 0 <= i < |cfg.typeCompatibility| ==> 0.0 <= cfg.typeCompatibility[i].2 <= 1.0
  }

  /** Weights that make the score a weighted mean. */
  ghost predicate MeanWeights(cfg: Config) {
    && Weight(cfg, "lexical") >= 0.0 && Weight(cfg, "embedding") >= 0.0 && Weight(cfg, "type") >= 0.0
    && Weight(cfg, "constraints") >= 0.0 && Weight(cfg, "context") >= 0.0
    && Weight(cfg, "lexical") + Weight(cfg, "embedding") + Weight(cfg, "type") + Weight(cfg, "constraints") +
       Weight(cfg, "context") == 1.0
  }

  ghost predicate IsSqrt(sqrt: real -> real) {
    forall x: real :: x >= 0.0 ==> sqrt(x) >= 0.0 && sqrt(x) * sqrt(x) == x
  }

  ghost predicate DistinctIds(ms: seq<Attribute>) {
    forall i, j :: 0 <= i < j < |ms| ==> ms[i].id != ms[j].id
  }
}

/**
 * The parts of the Physical Information File (PIF) object model that the
 * converter fills in, as plain values.
 */
module Pif {
  import opened Wrappers

  /** A `scalars` field: one text value, or a series of them. */
  datatype Scalars = Single(text: string) | Series(texts: seq<string>)

  datatype Value = Value(name: string, scalars: Scalars, units: Option<string>)

  datatype Instrument = Instrument(name: string)

  datatype FileReference = FileReference(relativePath: string)

  datatype Property = Property(
    name: string,
    scalars: Scalars,
    units: Option<string>,
    conditions: seq<Value>,
    instrument: Option<Instrument>,
    files: Option<FileReference>)

  datatype ChemicalSystem = ChemicalSystem(
    ids: seq<string>,
    chemicalFormula: Option<string>,
    properties: seq<Property>)
}

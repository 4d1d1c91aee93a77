/**
 * The records, the mapped classes and the category registry.
 *
 * A record is a map from attribute name to value; a missing key is a NULL
 * column or an empty relationship.  A mapped class is described by its
 * table, its columns, its unique columns, its relationships, its insert
 * defaults and its validated columns.  The registry maps a category name,
 * as written in identifier expressions and parameter trees, to a class or an
 * alias of one.
 */
module Schema {
  import opened Wrappers
  import opened Text
  import DateTimes

  datatype Value =
    | Int(i: int)
    | Str(s: string)
    | Date(dt: DateTimes.DateTime)
    | Refs(ids: seq<int>)   // the ids of the records held by a one-to-many or many-to-many relationship

  type Row = map<string, Value>

  /** `str(value)` for the values a resolver filters on. */
  function Shown(v: Value): string
  {
    match v
    case Int(i) => IntToString(i)
    case Str(s) => s
    case Date(dt) => if DateTimes.Valid(dt) then DateTimes.ToString(dt) else ""
    case Refs(_) => ""
  }

  datatype Relation = Relation(name: string, target: string, many: bool)

  /** A column default applied on insert: a constant, or the value given for another column. */
  datatype Default = Constant(v: Value) | CopyOf(column: string)

  datatype EntityType = EntityType(
    name: string,
    table: string,
    columns: seq<string>,
    unique: seq<string>,
    relations: seq<Relation>,
    defaults: seq<(string, Default)>,
    emailColumns: seq<string>)

  datatype AttributeKind = ColumnAttr | ToMany | ToOne | NoAttr

  function RelationKind(rels: seq<Relation>, name: string): (k: AttributeKind)
    ensures k == NoAttr || k == ToMany || k == ToOne
    ensures k != NoAttr <==> exists i :: 0 <= i < |rels| && rels[i].name == name
    ensures k == ToMany ==> exists i :: 0 <= i < |rels| && rels[i].name == name && rels[i].many
    ensures k == ToOne ==> exists i :: 0 <= i < |rels| && rels[i].name == name && !rels[i].many
  {
    if |rels| == 0 then NoAttr
    else if rels[0].name == name then (if rels[0].many then ToMany else ToOne)
    else RelationKind(rels[1..], name)
  }

  /** What `getattr(cls, name)` finds on a mapped class. */
  function Kind(et: EntityType, name: string): (k: AttributeKind)
    ensures k == ColumnAttr <==> name in et.columns
    ensures k == NoAttr <==> name !in et.columns && forall i :: 0 <= i < |et.relations| ==> et.relations[i].name != name
  {
    if name in et.columns then ColumnAttr else RelationKind(et.relations, name)
  }

  /** A registry entry: a mapped class, or an alias of one made by `aliased(...)`. */
  datatype ClassRef = ClassRef(entity: EntityType, alias: Option<string>)

  type Registry = map<string, ClassRef>

  function Plain(et: EntityType): ClassRef { ClassRef(et, None) }

  // --- The categories of labbookdb/db (common_classes.py and base_classes.py) that the model registers.

  const AnimalCurrent := EntityType(
    "Animal", "animals",
    ["id", "birth_date", "death_date", "death_reason", "ear_punches", "license", "maximal_severtity", "sex"],
    [],
    [Relation("cage_stays", "CageStay", true), Relation("external_ids", "AnimalExternalIdentifier", true),
     Relation("measurements", "Measurement", true), Relation("genotypes", "Genotype", true),
     Relation("treatments", "Treatment", true), Relation("observations", "Observation", true),
     Relation("operations", "Operation", true), Relation("biopsies", "Biopsy", true)],
    [("maximal_severtity", Constant(Int(0)))],
    [])

  const AnimalExternalIdentifierCurrent := EntityType(
    "AnimalExternalIdentifier", "animal_external_identifiers",
    ["id", "database", "identifier", "animal_id"], [], [], [], [])

  const CageCurrent := EntityType(
    "Cage", "cages",
    ["id", "id_local", "location", "environmental_enrichment"],
    ["id_local"],
    [Relation("handling_habituations", "HandlingHabituation", true), Relation("treatments", "Treatment", true),
     Relation("measurements", "Measurement", true), Relation("stays", "CageStay", true)],
    [], [])

  const CageStayCurrent := EntityType(
    "CageStay", "cage_stays",
    ["id", "start_date", "cage_id", "single_caged"],
    [],
    [Relation("cage", "Cage", false), Relation("animals", "Animal", true)],
    [], [])

  const GenotypeEntity := EntityType(
    "Genotype", "genotypes",
    ["id", "code", "construct", "zygosity"],
    ["code"],
    [Relation("animals", "Animal", true)],
    [], [])

  const OperatorEntity := EntityType(
    "Operator", "operators",
    ["id", "code", "full_name", "affiliation", "email"],
    ["code"], [], [], ["email"])

  const TreatmentCurrent := EntityType(
    "Treatment", "treatments",
    ["id", "start_date", "end_date", "protocol_id"],
    [],
    [Relation("protocol", "Protocol", false), Relation("animals", "Animal", true), Relation("cages", "Cage", true)],
    [], [])

  /** TreatmentProtocol with the columns it inherits from Protocol, flattened into one record. */
  const TreatmentProtocolEntity := EntityType(
    "TreatmentProtocol", "treatment_protocols",
    ["id", "code", "name", "type", "frequency", "route", "rate", "rate_unit_id", "dose", "dose_unit_id", "solution_id"],
    ["code", "name"],
    [Relation("authors", "Operator", true), Relation("rate_unit", "MeasurementUnit", false),
     Relation("dose_unit", "MeasurementUnit", false), Relation("solution", "Solution", false)],
    [("type", Constant(Str("treatment")))],
    [])

  /** The registry the current resolver and constructor look categories up in. */
  const CurrentRegistry: Registry := map[
    "Animal" := Plain(AnimalCurrent),
    "AnimalExternalIdentifier" := Plain(AnimalExternalIdentifierCurrent),
    "Cage" := Plain(CageCurrent),
    "CageStay" := Plain(CageStayCurrent),
    "Genotype" := Plain(GenotypeEntity),
    "Operator" := Plain(OperatorEntity),
    "Treatment" := Plain(TreatmentCurrent),
    "TreatmentProtocol" := Plain(TreatmentProtocolEntity)]

  // --- The categories of the older revision (db/common_classes.py) that the model registers.

  const AnimalLegacy := EntityType(
    "Animal", "animals",
    ["id", "id_eth", "id_uzh", "sex", "ear_punches", "maximal_severtity", "birth_date", "death_date", "death_reason"],
    ["id_eth"],
    [Relation("weights", "Weight", true), Relation("cage_stays", "CageStay", true),
     Relation("measurements", "Measurement", true), Relation("genotypes", "Genotype", true),
     Relation("treatments", "Treatment", true), Relation("observations", "Observation", true),
     Relation("uncategorized_treatments", "UncategorizedTreatment", true)],
    [("maximal_severtity", Constant(Int(0)))],
    [])

  const CageLegacy := EntityType(
    "Cage", "cages",
    ["id", "id_local", "location"],
    ["id_local"],
    [Relation("handling_habituations", "HandlingHabituation", true), Relation("treatments", "Treatment", true),
     Relation("measurements", "Measurement", true), Relation("stays", "CageStay", true)],
    [], [])

  const CageStayLegacy := EntityType(
    "CageStay", "cage_stays",
    ["id", "start_date", "end_date", "cage_id", "single_cged"],
    [],
    [Relation("cage", "Cage", false)],
    [], [])

  /** Substance, whose `long_name` defaults on insert to the `name` given for the same record. */
  const SubstanceLegacy := EntityType(
    "Substance", "substances",
    ["id", "code", "name", "long_name", "concentration", "concentration_unit_id", "supplier", "supplier_product_code"],
    ["code", "name", "long_name"],
    [Relation("concentration_unit", "MeasurementUnit", false)],
    [("long_name", CopyOf("name"))],
    [])

  const TreatmentLegacy := EntityType(
    "Treatment", "treatments",
    ["id", "start_date", "end_date", "protocol_id"],
    [],
    [Relation("protocol", "TreatmentProtocol", false), Relation("animals", "Animal", true), Relation("cages", "Cage", true)],
    [], [])

  const LegacyRegistry: Registry := map[
    "Animal" := Plain(AnimalLegacy),
    "Cage" := Plain(CageLegacy),
    "CageStay" := Plain(CageStayLegacy),
    "Genotype" := Plain(GenotypeEntity),
    "Operator" := Plain(OperatorEntity),
    "Substance" := Plain(SubstanceLegacy),
    "Treatment" := Plain(TreatmentLegacy),
    "TreatmentProtocol" := Plain(TreatmentProtocolEntity)]
}

/**
 * The job types a tool is useful for
 * (web/lib/data/enumMapping/mapToolNameToJobType.ts), with `OTHER` for tools the table
 * does not list.
 */
module ToolMapping {

  /** The job types the table mentions. */
  datatype JobType = Wood | Garden | Housework | Painting | Other

  /** `toolToJobTypeMapping` */
  const ToolToJobType: map<string, seq<JobType>> := map[
    "AXE" := [Wood],
    "BOW_SAW" := [Wood],
    "LADDER" := [Garden, Housework, Painting],
    "PAINT" := [Painting],
    "PAINT_ROLLER" := [Painting],
    "COVER_SHEET" := [Painting],
    "MASKING_TAPE" := [Painting],
    "PAINT_BRUSH" := [Painting],
    "SCRAPER_GRID" := [Painting],
    "PAINTER_SPATULA" := [Painting],
    "JAPANESE_SPATULA" := [Painting],
    "GYPSUM" := [Painting],
    "BUCKET" := [Housework],
    "RAG" := [Housework],
    "BROOM" := [Housework]
  ]

  /** The tools that only painting needs. */
  const PaintTools: set<string> := {
    "PAINT", "PAINT_ROLLER", "COVER_SHEET", "MASKING_TAPE", "PAINT_BRUSH",
    "SCRAPER_GRID", "PAINTER_SPATULA", "JAPANESE_SPATULA", "GYPSUM"
  }

  /** `mapToolNameToJobType(id)`: the table entry, or `['OTHER']`. */
  function MapToolNameToJobType(id: string): (types: seq<JobType>)
    ensures types != []
    ensures id !in ToolToJobType ==> types == [Other]
  {
    if id in ToolToJobType then ToolToJobType[id] else [Other]
  }

  /** `OTHER` is the answer exactly for the tools the table does not list. */
  lemma OtherExactlyForUnknown(id: string)
    ensures MapToolNameToJobType(id) == [Other] <==> id !in ToolToJobType
    ensures Other in MapToolNameToJobType(id) <==> id !in ToolToJobType
  {
  }

  /** The ladder is the only tool useful for more than one job type. */
  lemma LadderOnlyMultiType(id: string)
    ensures MapToolNameToJobType("LADDER") == [Garden, Housework, Painting]
    ensures |MapToolNameToJobType(id)| > 1 <==> id == "LADDER"
  {
  }

  /** The wood, housework and painting tools. */
  lemma ToolGroups(id: string)
    ensures id in {"AXE", "BOW_SAW"} ==> MapToolNameToJobType(id) == [Wood]
    ensures id in {"BUCKET", "RAG", "BROOM"} ==> MapToolNameToJobType(id) == [Housework]
    ensures id in PaintTools ==> MapToolNameToJobType(id) == [Painting]
    ensures MapToolNameToJobType(id) == [Painting] <==> id in PaintTools
  {
  }
}

/** The normalised opportunity record every harvester emits. */
module Records {

  /** `id` is only source-local; `text` is the composed excerpt; `source` names the provenance. */
  datatype Record = Record(id: string, text: string, url: string, source: string)
}

/** The values the pages exchange: questions from the feed and the per-question
    practice record written to the object store. Optional JSON members are
    `Option`s; a member that is present is truthy in every place the pages test
    it (an object or an array is truthy even when empty). */
module Records {

  datatype Option<+T> = None | Some(value: T)

  /** A binary blob (recorded audio) as its bytes. */
  type Blob = seq<bv8>

  /** An entry of the question feed, with its text already decoded. */
  datatype Question = Question(id: string, text: string)

  /** One highlighted span of a match's refined sentence. */
  datatype Highlight = Highlight(text: string, startOffset: int, endOffset: int)

  /** One sentence of the refined answer paired with the transcribed words it
      came from, plus the user's favourite flag. */
  datatype Match = Match(
    transcription: string,
    refinedVersion: string,
    isFavorite: bool,
    highlights: Option<seq<Highlight>>)

  /** The analysis of one recorded answer. */
  datatype Results = Results(
    transcription: string,
    refinedVersion: string,
    matches: Option<seq<Match>>)

  /** The record stored under key `id`: `{id, audioBlob, results}`. */
  datatype Record = Record(id: string, audioBlob: Option<Blob>, results: Option<Results>)
}

/** The catalog records of types.ts. They are plain immutable values. */
module Types {

  datatype Gender = Male | Female | Neutral

  datatype Language = Language(id: string, name: string)

  /** An accent belongs to the language named by `languageId`. */
  datatype Accent = Accent(id: string, name: string, languageId: string)

  datatype SpeechType = SpeechType(id: string, name: string)

  /** A voice is applicable where its `tags` say: composite
      "{language}-{accent}" tags and speech-type ids. */
  datatype Voice = Voice(
    id: string,
    name: string,
    gender: Gender,
    description: string,
    tags: seq<string>,
    previewText: string)
}

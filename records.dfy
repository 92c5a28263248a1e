/** Records stored in the tagger data: hard rules and the calls made on the
    pattern list. */
module TaggerRecords {
  import opened Common

  /** Marks a forbid rule that names only two labels. */
  const NO_TAGK: int := -999

  /** The value a two-label forbid rule is stored as in a model file. */
  const STORED_NO_TAGK: int := 999

  /** TForbidRule: forbids (tagi, tagj, tagk), or every trigram with the
      bigram (tagi, tagj) when `tagk` is NO_TAGK. */
  datatype ForbidRule = ForbidRule(tagi: Tag, tagj: Tag, tagk: Tag)

  /** TEnforceAfterRule: after `tagi` only tags of `tagsj` may follow, and
      after those only tags of `tagsk` when `tagsk` is non-empty. */
  datatype EnforceRule = EnforceRule(tagi: Tag, tagsj: seq<Tag>, tagsk: seq<Tag>)

  /** One call on the pattern list; the list itself and the transducer it
      builds are not part of this model, so it is kept as the calls made. */
  datatype PatternOp =
    | InsertTags(tag: Tag, lemmaForm: string, tags: string)
    | InsertLabel(tag: Tag, labelTag: Tag)
    | BeginSequence
    | EndSequence
    | BuildTransducer
}

/** The dialect descriptor of a booru: its URL format and its option bit-set,
    and the capability gate derived from the bits. */
module Capabilities {

  /** The six URL grammars (`UrlFormat`). */
  datatype UrlFormat = PostIndexJson | IndexPhp | Danbooru | Sankaku | Philomena | BooruOnRails

  /** One bit of `BooruOptions`. */
  datatype BooruOption =
    | NoRelated | NoWiki | NoComment | NoTagByID | NoLastComments | NoPostByMD5 | NoPostByID
    | NoPostCount | NoMultipleRandom | NoFavorite | NoAutocomplete | NoEmptyPostSearch
    | NoMoreThan2Tags | UseHttp | TagApiXml | CommentApiXml | LimitOf20000

  /** The bits that are set; `options.HasFlag(x)` is `x in options`. */
  type Options = set<BooruOption>

  /** The optional APIs a booru may lack. */
  datatype Api =
    | RelatedApi | WikiApi | CommentApi | TagByIdApi | LastCommentApi | PostByMd5Api
    | PostByIdApi | PostCountApi | MultipleRandomApi | FavoriteApi | AutocompleteApi

  /** The option bit that switches an API off. */
  function Gate(api: Api): BooruOption
  {
    match api
    case RelatedApi => NoRelated
    case WikiApi => NoWiki
    case CommentApi => NoComment
    case TagByIdApi => NoTagByID
    case LastCommentApi => NoLastComments
    case PostByMd5Api => NoPostByMD5
    case PostByIdApi => NoPostByID
    case PostCountApi => NoPostCount
    case MultipleRandomApi => NoMultipleRandom
    case FavoriteApi => NoFavorite
    case AutocompleteApi => NoAutocomplete
  }

  /** The `Has*API` properties: an API is available when its bit is clear;
      searching the last comments also needs the comment API. */
  predicate Has(options: Options, api: Api)
  {
    Gate(api) !in options && (api == LastCommentApi ==> Gate(CommentApi) !in options)
  }

  /** Every API is governed by its own bit, the last-comment search also by the
      comment bit, and by no other bit. */
  lemma HasGovernedByGate(options: Options, api: Api, bit: BooruOption)
    requires bit != Gate(api) && !(api == LastCommentApi && bit == NoComment)
    ensures Has(options + {bit}, api) == Has(options, api)
    ensures Has(options - {bit}, api) == Has(options, api)
    ensures !Has(options + {Gate(api)}, api)
    ensures Has(options - {Gate(api)}, api) <==> (api == LastCommentApi ==> NoComment !in options)
  {
  }

  /** The last-comment search is never on without the comment API. */
  lemma LastCommentNeedsComment(options: Options)
    ensures Has(options, LastCommentApi) ==> Has(options, CommentApi)
    ensures Has(options, LastCommentApi) <==> NoComment !in options && NoLastComments !in options
  {
  }

  // The quirk flags, each equal to its bit.

  predicate NoEmptyPostSearch(options: Options) { BooruOption.NoEmptyPostSearch in options }
  predicate NoMoreThanTwoTags(options: Options) { NoMoreThan2Tags in options }
  predicate UsesHttp(options: Options) { UseHttp in options }
  predicate TagsUseXml(options: Options) { TagApiXml in options }
  predicate CommentsUseXml(options: Options) { CommentApiXml in options }
  predicate SearchIncreasedPostLimit(options: Options) { LimitOf20000 in options }

  /** Philomena and Booru-on-Rails share one query grammar. */
  predicate IsPhilomenaFamily(format: UrlFormat)
  {
    format == Philomena || format == BooruOnRails
  }
}

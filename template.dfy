/**
 * An HTML document built by a template literal, seen as the sequence of its
 * pieces: fixed markup, named by the fragment of the template it comes from,
 * and text interpolated verbatim from the caller. The character content of
 * the fixed fragments (style sheets, headings, lists of steps) is not
 * modelled; only which fragment stands where.
 */
module Template {

  datatype Piece<F> = Markup(fragment: F) | Verbatim(text: string)

  /** Every piece of `doc` except those at `holes` is fixed markup: nothing else comes from the caller. */
  predicate OnlyHolesVerbatim<F>(doc: seq<Piece<F>>, holes: set<nat>) {
    forall k :: 0 <= k < |doc| && doc[k].Verbatim? ==> k in holes
  }
}

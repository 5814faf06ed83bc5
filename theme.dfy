/**
 * The colour palette. Its implementation is not part of this model: every
 * decoration is an uninterpreted text transform, and the four colour codes
 * used by the presenters are uninterpreted strings.
 */
module Theme {

  datatype Theme = Theme(
    separatorLine: string,
    columns: seq<string> -> string,
    classname: string -> string,
    message: string -> string,
    explanation: string -> string,
    context: string -> string,
    details: string -> string,
    colorPath: string -> string,
    colorFilename: string -> string,
    /** `color_linenum` applied to a formatted line-number prefix */
    colorLinenum: string -> string,
    /** `color_linenum` applied to the integer line number of the path header */
    colorLinenumOf: int -> string,
    markLinenum: string -> string,
    syntaxHighlight: string -> string,
    /** `highlight_text(code, line_offset, token)` */
    highlightText: (string, int, string) -> string,
    screamingRed: string -> string,
    underline: string -> string,
    /** `indent(code, prefix)` */
    indent: (string, string) -> string,
    desaturate: string -> string,
    white: string,
    briRed: string,
    dimRed: string,
    none: string)
}

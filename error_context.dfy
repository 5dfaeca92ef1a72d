/** Where an error is, and the source context shown with it (src/utils/error_context.py):
    the location an exception carries and the formatted window around it. */
module ErrorContext {
  import opened Wrappers
  import opened Strings
  import opened Positions
  import opened SourceLines
  import opened ContextWindow

  // ---------------------------------------------------------------------------
  // Where an error is

  /** What an exception carries: a position (lexical errors), a token with start and end
      attributes that may be missing (syntax errors), or neither. */
  datatype ErrorSite = AtPosition(position: Position) | AtToken(start: Option<int>, end: Option<int>) | Elsewhere

  /** `extract_location_from_exception`. */
  function ExtractLocation(source: string, site: ErrorSite): Option<SourceLocation> {
    match site
    case AtPosition(p) => Some(SourceLocation(p.index, p.line, p.column, 1))
    case AtToken(start, end) =>
      if start.None? then None
      else
        var s := start.value;
        var e := if end.None? || end.value < s then s + 1 else end.value;
        var p := Walk(source, Clamp(s, |source|));
        Some(SourceLocation(s, p.line, p.column, Max(1, e - s)))
    case Elsewhere => None
  }

  /** A position is taken as it is with span 1; a token gives its start, the line and
      column of that start, and a span from start to end that is at least 1: exactly 1
      when the end is missing or not after the start. Nothing else is located. */
  lemma LocationRule(source: string, site: ErrorSite)
    ensures site.AtPosition? ==>
              ExtractLocation(source, site) == Some(SourceLocation(site.position.index, site.position.line, site.position.column, 1))
    ensures site.Elsewhere? || (site.AtToken? && site.start.None?) ==> ExtractLocation(source, site).None?
    ensures site.AtToken? && site.start.Some? ==>
              var loc := ExtractLocation(source, site);
              var s := site.start.value;
              var n := Clamp(s, |source|);
              loc.Some? && loc.value.index == s && loc.value.span >= 1
              && loc.value.line == 1 + Newlines(source[..n]) && loc.value.column == 1 + n - LineStart(source, n)
              && (site.end.Some? && site.end.value > s ==> loc.value.span == site.end.value - s)
              && (site.end.None? || site.end.value <= s ==> loc.value.span == 1)
  {
    if site.AtToken? && site.start.Some? {
      WalkCounts(source, Clamp(site.start.value, |source|));
    }
  }

  // ---------------------------------------------------------------------------
  // Formatting

  /** `format_error_context`. */
  method FormatErrorContext(source: string, loc: SourceLocation, window: int) returns (r: string)
    ensures r == Join(ContextRows(source, loc, window), "\n")
  {
    if |source| == 0 {
      return "";
    }
    var lines := SplitLines(source);
    var out := WindowAround(lines, loc, window);
    r := Join(out, "\n");
  }
}

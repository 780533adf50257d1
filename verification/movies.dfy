/**
 `format_movies`: each TMDB result record becomes a `(caption, poster URL)` pair.
 Missing members take a default text, the release date is cut to its year, the
 poster path is appended to the image base URL, and title, year and overview are
 escaped for Telegram's MarkdownV2 before being laid out as
 `*title* (year)` and an italic overview on the next line.

 The escaping function (python-telegram-bot's `escape_markdown`, version 2) is
 a parameter `esc`: the model makes no assumption about it except where a lemma
 states one.
 */
module Movies {
  import opened Wrappers
  import opened Strings

  /** A JSON object member as `dict.get` sees it: missing, `null`, or a value. */
  datatype Field<+T> = Absent | Null | Present(value: T)

  /** One record of TMDB's `results` array, reduced to the members the bot reads. */
  datatype Movie = Movie(
    title: Field<string>,
    releaseDate: Field<string>,
    overview: Field<string>,
    posterPath: Field<string>)

  /** `(text, poster_url)`: the MarkdownV2 caption and the poster URL, if any. */
  datatype Entry = Entry(caption: string, poster: Option<string>)

  const Untitled := "Untitled"
  const NoYear := "N/A"
  const NoOverview := "No description available."
  const PosterBase := "https://image.tmdb.org/t/p/w500"

  /** Python truthiness of a member that is a string when present. */
  predicate Truthy(f: Field<string>) {
    f.Present? && f.value != []
  }

  /**
   `movie.get(key, default)` for a member that is then escaped: None when the
   member is `null`, because escaping `None` raises.
   */
  function TextOr(f: Field<string>, default: string): (r: Option<string>)
    ensures r.None? <==> f.Null?
    ensures f.Absent? ==> r == Some(default)
    ensures f.Present? ==> r == Some(f.value)
  {
    match f
    case Absent => Some(default)
    case Null => None
    case Present(s) => Some(s)
  }

  /** A record can be formatted unless its title or overview is `null`. */
  predicate Formattable(m: Movie) {
    !m.title.Null? && !m.overview.Null?
  }

  /** The smaller of two bounds, as the slices `[:4]` and `[:5]` clamp to the length. */
  function Min(a: int, b: int): (m: int)
    ensures m <= a && m <= b && (m == a || m == b)
  {
    if a <= b then a else b
  }

  /** The year shown: at most the first four characters of a non-empty release date, else "N/A". */
  function Year(date: Field<string>): (r: string)
    ensures |r| <= 4
    ensures Truthy(date) ==> IsPrefix(r, date.value) && |r| == Min(4, |date.value|)
    ensures !Truthy(date) ==> r == NoYear
  {
    if Truthy(date) then date.value[..Min(4, |date.value|)] else NoYear
  }

  /** The poster URL: the image base followed by a non-empty poster path, else none. */
  function PosterUrl(path: Field<string>): (r: Option<string>)
    ensures r.Some? <==> Truthy(path)
    ensures r.Some? ==> IsPrefix(PosterBase, r.value) && r.value[|PosterBase|..] == path.value
  {
    if Truthy(path) then Some(PosterBase + path.value) else None
  }

  /**
   `*title* (year)`, a line break, then `_overview_`, each part escaped.
   `CaptionRoundTrip` below reads the three parts back.
   */
  function Caption(esc: string -> string, title: string, year: string, overview: string): (r: string)
    ensures |r| == |esc(title)| + |esc(year)| + |esc(overview)| + 8
    ensures r[0] == '*' && r[|r| - 1] == '_'
  {
    "*" + esc(title) + "* (" + esc(year) + ")\n_" + esc(overview) + "_"
  }

  /** One iteration of the loop in `format_movies`; None where it would raise. */
  function FormatMovie(m: Movie, esc: string -> string): (r: Option<Entry>)
    ensures r.Some? <==> Formattable(m)
    ensures r.Some? ==> r.value.poster == PosterUrl(m.posterPath)
    ensures r.Some? ==> (r.value.caption ==
      Caption(esc, TextOr(m.title, Untitled).value, Year(m.releaseDate), TextOr(m.overview, NoOverview).value))
  {
    match (TextOr(m.title, Untitled), TextOr(m.overview, NoOverview))
    case (Some(title), Some(overview)) =>
      Some(Entry(Caption(esc, title, Year(m.releaseDate), overview), PosterUrl(m.posterPath)))
    case _ => None
  }

  /**
   `format_movies`: one entry per record, in order; None when some record
   cannot be formatted (the call raises and the caller returns an empty list).
   */
  function FormatMovies(ms: seq<Movie>, esc: string -> string): (r: Option<seq<Entry>>)
    ensures r.Some? <==> forall k :: 0 <= k < |ms| ==> Formattable(ms[k])
    ensures r.Some? ==> |r.value| == |ms|
    ensures r.Some? ==> forall k :: 0 <= k < |ms| ==> FormatMovie(ms[k], esc) == Some(r.value[k])
    decreases |ms|
  {
    if ms == [] then Some([])
    else
      var head, rest := FormatMovie(ms[0], esc), FormatMovies(ms[1..], esc);
      TailIndex(ms);
      if head.Some? && rest.Some? then Some([head.value] + rest.value)
      else None
  }

  /** Every index of `ms[1..]` is an index of `ms` one further on. */
  lemma TailIndex<T>(ms: seq<T>)
    requires ms != []
    ensures forall k :: 0 <= k < |ms| - 1 ==> ms[1..][k] == ms[k + 1]
  {
  }

  // ---------------------------------------------------------------------------
  // Reading a caption back

  /**
   `s` has no unescaped `c`: every `c` follows a backslash that escapes it, and
   no backslash is left dangling at the end.
   */
  predicate NoBare(s: string, c: char)
    decreases |s|
  {
    if s == [] then true
    else if s[0] == c then false
    else if s[0] == '\\' then |s| >= 2 && NoBare(s[2..], c)
    else NoBare(s[1..], c)
  }

  /** The prefix of `s` before its first unescaped `c`. */
  function UpToBare(s: string, c: char): (r: string)
    ensures |r| <= |s| && r == s[..|r|]
    decreases |s|
  {
    if s == [] || s[0] == c then []
    else if s[0] == '\\' && |s| >= 2 then
      var r := UpToBare(s[2..], c);
      assert s[..2] + r == s[..2 + |r|];
      s[..2] + r
    else
      var r := UpToBare(s[1..], c);
      assert [s[0]] + r == s[..1 + |r|];
      [s[0]] + r
  }

  lemma {:induction false} UpToBareStops(a: string, c: char, b: string)
    requires c != '\\' && NoBare(a, c)
    ensures UpToBare(a + [c] + b, c) == a
    decreases |a|
  {
    var s := a + [c] + b;
    if a == [] {
      assert s[0] == c;
    } else if a[0] == '\\' {
      assert |a| >= 2 && s[..2] == a[..2];
      assert s[2..] == a[2..] + [c] + b;
      UpToBareStops(a[2..], c, b);
      assert a[..2] + a[2..] == a;
    } else {
      assert s[0] == a[0];
      assert s[1..] == a[1..] + [c] + b;
      UpToBareStops(a[1..], c, b);
      assert [a[0]] + a[1..] == a;
    }
  }

  /**
   Splits a caption into its escaped title (the bold span), year (inside the
   parentheses) and overview (the italic span), or None if it is not laid out
   as a caption.
   */
  function ParseCaption(cap: string): Option<(string, string, string)> {
    if cap == [] || cap[0] != '*' then None else ParseFromTitle(cap[1..])
  }

  function ParseFromTitle(s: string): Option<(string, string, string)> {
    var title := UpToBare(s, '*');
    var rest := s[|title|..];
    if !IsPrefix("* (", rest) then None
    else match ParseFromYear(rest[3..])
      case Some((year, overview)) => Some((title, year, overview))
      case None => None
  }

  function ParseFromYear(s: string): Option<(string, string)> {
    var year := UpToBare(s, ')');
    var rest := s[|year|..];
    if !IsPrefix(")\n_", rest) then None
    else match ParseOverview(rest[3..])
      case Some(overview) => Some((year, overview))
      case None => None
  }

  function ParseOverview(s: string): Option<string> {
    if s == [] || s[|s| - 1] != '_' then None else Some(s[..|s| - 1])
  }

  lemma ParseOverviewLaidOut(o: string)
    ensures ParseOverview(o + "_") == Some(o)
  {
  }

  /** Cutting `a + (d + rest)` at the first unescaped `d[0]` gives `a`, and leaves `d + rest`. */
  lemma CutAtBare(a: string, d: string, rest: string)
    requires d != [] && d[0] != '\\' && NoBare(a, d[0])
    ensures UpToBare(a + (d + rest), d[0]) == a
    ensures (a + (d + rest))[|a|..] == d + rest
  {
    var s := a + (d + rest);
    assert s == a + [d[0]] + (d[1..] + rest);
    UpToBareStops(a, d[0], d[1..] + rest);
  }

  lemma ParseFromYearLaidOut(y: string, o: string)
    requires NoBare(y, ')')
    ensures ParseFromYear(y + (")\n_" + (o + "_"))) == Some((y, o))
  {
    CutAtBare(y, ")\n_", o + "_");
    assert (")\n_" + (o + "_"))[3..] == o + "_";
    ParseOverviewLaidOut(o);
  }

  lemma ParseFromTitleLaidOut(t: string, y: string, o: string)
    requires NoBare(t, '*') && NoBare(y, ')')
    ensures ParseFromTitle(t + ("* (" + (y + (")\n_" + (o + "_"))))) == Some((t, y, o))
  {
    var rest := y + (")\n_" + (o + "_"));
    CutAtBare(t, "* (", rest);
    assert ("* (" + rest)[3..] == rest;
    ParseFromYearLaidOut(y, o);
  }

  /**
   When the escaped title has no unescaped `*` and the escaped year no
   unescaped `)`, as MarkdownV2 escaping guarantees, the caption gives back the
   three escaped parts.
   */
  lemma CaptionRoundTrip(esc: string -> string, title: string, year: string, overview: string)
    requires NoBare(esc(title), '*') && NoBare(esc(year), ')')
    ensures ParseCaption(Caption(esc, title, year, overview)) == Some((esc(title), esc(year), esc(overview)))
  {
    var t, y, o := esc(title), esc(year), esc(overview);
    var cap := Caption(esc, title, year, overview);
    assert cap == "*" + (t + ("* (" + (y + (")\n_" + (o + "_")))));
    assert cap[1..] == t + ("* (" + (y + (")\n_" + (o + "_"))));
    ParseFromTitleLaidOut(t, y, o);
  }

  /** A formatted entry's caption gives back the escaped title, year and overview of its record. */
  lemma FormatMovieCaption(m: Movie, esc: string -> string)
    requires Formattable(m)
    requires NoBare(esc(TextOr(m.title, Untitled).value), '*')
    requires NoBare(esc(Year(m.releaseDate)), ')')
    ensures ParseCaption(FormatMovie(m, esc).value.caption) ==
      Some((esc(TextOr(m.title, Untitled).value), esc(Year(m.releaseDate)), esc(TextOr(m.overview, NoOverview).value)))
  {
    CaptionRoundTrip(esc, TextOr(m.title, Untitled).value, Year(m.releaseDate), TextOr(m.overview, NoOverview).value);
  }
}

/**
 * Genre enrichment of the films table: drop films without a release date or
 * an overview, parse the comma-separated GENRE_IDS text permissively into a
 * list of Int64 ids, then explode the ids, left-join them to the genres table,
 * collect the names back per film and rejoin them, so that every kept film
 * gets a `genre_name` list, empty when it has no ids.
 */
module GenreMapping {
  import opened Wrappers
  import opened Relational

  /** The largest value of a 64-bit signed integer column. */
  const INT64_MAX: int := 0x7FFF_FFFF_FFFF_FFFF

  /**
   * A row of the films table. RELEASE_DATE is the raw column value: only its
   * NULL-ness matters here, so an unparseable but non-NULL date is kept.
   * GENRE_IDS is raw text such as "[28, 12]".
   */
  datatype Film = Film(overview: Option<string>, releaseDate: Option<string>, originalTitle: Option<string>, genreIdsText: Option<string>)

  /** A row of the genres table, renamed to (genre_id, genre_name). */
  datatype Genre = Genre(id: Option<int>, name: Option<string>)

  /** A kept film with its parsed `genre_ids` column. */
  datatype ParsedFilm = ParsedFilm(film: Film, genreIds: Option<seq<int>>)

  /** One exploded (row_nr, genre_ids) pair. */
  datatype IdPair = IdPair(row: nat, genreId: int)

  /** One row of the pairs joined to the genres: (row_nr, genre_name). */
  datatype NamePair = NamePair(row: nat, genreName: Option<string>)

  /** One row of the grouped names: (row_nr, list of genre_name). */
  datatype RowNames = RowNames(row: nat, names: seq<Option<string>>)

  /** A kept film carrying its row number, as `with_row_count("row_nr")` produces. */
  datatype NumberedFilm = NumberedFilm(row: nat, parsed: ParsedFilm)

  /** An output row: the film's own columns plus `genre_ids` and `genre_name`. */
  datatype EnrichedFilm = EnrichedFilm(film: Film, genreIds: Option<seq<int>>, genreNames: seq<Option<string>>)

  // ---------------------------------------------------------------------------
  // Row filter

  predicate Complete(f: Film)
  {
    f.releaseDate.Some? && f.overview.Some?
  }

  /** Keeps exactly the films with a release date and an overview, in order. */
  function DropIncomplete(films: seq<Film>): (kept: seq<Film>)
    ensures forall i :: 0 <= i < |kept| ==> Complete(kept[i])
  {
    if films == [] then []
    else (if Complete(films[0]) then [films[0]] else []) + DropIncomplete(films[1..])
  }

  /** Every complete film is kept exactly as often as it occurs, and no other film is. */
  lemma {:induction false} DropIncompleteKeeps(films: seq<Film>)
    ensures forall f :: multiset(DropIncomplete(films))[f] == if Complete(f) then multiset(films)[f] else 0
  {
    if films != [] {
      DropIncompleteKeeps(films[1..]);
      assert films == [films[0]] + films[1..];
    }
  }

  /** The filter keeps order: filtering a concatenation filters each part in turn. */
  lemma {:induction false} DropIncompleteAppend(a: seq<Film>, b: seq<Film>)
    ensures DropIncomplete(a + b) == DropIncomplete(a) + DropIncomplete(b)
  {
    if a != [] {
      assert (a + b)[1..] == a[1..] + b;
      DropIncompleteAppend(a[1..], b);
    } else {
      assert a + b == b;
    }
  }

  // ---------------------------------------------------------------------------
  // Parsing GENRE_IDS

  predicate IsDigit(c: char)
  {
    '0' <= c <= '9'
  }

  predicate AllDigits(s: string)
  {
    forall i :: 0 <= i < |s| ==> IsDigit(s[i])
  }

  predicate DigitsAndCommas(s: string)
  {
    forall i :: 0 <= i < |s| ==> IsDigit(s[i]) || s[i] == ','
  }

  /** Removes every character that is neither a digit nor a comma. */
  function KeepDigitsAndCommas(s: string): (r: string)
    ensures |r| <= |s|
    ensures DigitsAndCommas(r)
  {
    if s == [] then []
    else (if IsDigit(s[0]) || s[0] == ',' then [s[0]] else []) + KeepDigitsAndCommas(s[1..])
  }

  /** Stripping text that holds only digits and commas changes nothing. */
  lemma {:induction false} KeepCleanText(s: string)
    requires DigitsAndCommas(s)
    ensures KeepDigitsAndCommas(s) == s
  {
    if s != [] {
      KeepCleanText(s[1..]);
      assert s == [s[0]] + s[1..];
    }
  }

  /** The parts joined back with commas between them. */
  function JoinWithComma(parts: seq<string>): string
  {
    if parts == [] then ""
    else if |parts| == 1 then parts[0]
    else parts[0] + "," + JoinWithComma(parts[1..])
  }

  /** `str.split(",")`: the maximal comma-free pieces, empty pieces included. */
  function SplitOnComma(s: string): (parts: seq<string>)
    ensures |parts| >= 1
    ensures forall i :: 0 <= i < |parts| ==> ',' !in parts[i]
    ensures JoinWithComma(parts) == s
  {
    if s == [] then [""]
    else
      var rest := SplitOnComma(s[1..]);
      if s[0] == ',' then
        assert JoinWithComma([""] + rest) == "" + "," + JoinWithComma(rest);
        [""] + rest
      else
        var parts := [[s[0]] + rest[0]] + rest[1..];
        assert JoinWithComma(parts) == [s[0]] + JoinWithComma(rest) by {
          if |rest| > 1 {
            assert parts[1..] == rest[1..];
          }
        }
        parts
  }

  /** The decimal value of a string of digits. */
  function DigitsValue(s: string): nat
    requires AllDigits(s)
  {
    if s == [] then 0 else 10 * DigitsValue(s[..|s| - 1]) + (s[|s| - 1] as int - '0' as int)
  }

  /**
   * Non-strict cast of one token to Int64: the token's value when it is a
   * decimal number that fits, and None (a failed cast) otherwise.
   */
  function CastInt64(token: string): (r: Option<int>)
    // The range, a consequence of the next two clauses, stated for callers:
    ensures r.Some? ==> 0 <= r.value <= INT64_MAX
    ensures r.Some? <==> token != "" && AllDigits(token) && DigitsValue(token) <= INT64_MAX
    ensures r.Some? ==> r.value == DigitsValue(token)
  {
    if token != "" && AllDigits(token) && DigitsValue(token) <= INT64_MAX then Some(DigitsValue(token)) else None
  }

  /** Drops empty tokens, casts the rest and drops the failed casts, keeping order. */
  function ParseTokens(tokens: seq<string>): (ids: seq<int>)
    ensures |ids| <= |tokens|
    ensures forall i :: 0 <= i < |ids| ==> 0 <= ids[i] <= INT64_MAX
  {
    if tokens == [] then []
    else
      var head := if tokens[0] == "" then None else CastInt64(tokens[0]);
      (if head.Some? then [head.value] else []) + ParseTokens(tokens[1..])
  }

  /**
   * The `genre_ids` column: NULL for a NULL or empty GENRE_IDS text; otherwise
   * the list of the numbers between commas once non-digits are stripped.
   */
  function ParseGenreIds(text: Option<string>): (ids: Option<seq<int>>)
    ensures ids.None? <==> text.None? || text.value == ""
    ensures ids.Some? ==> forall i :: 0 <= i < |ids.value| ==> 0 <= ids.value[i] <= INT64_MAX
  {
    if text.None? || text.value == "" then None
    else Some(ParseTokens(SplitOnComma(KeepDigitsAndCommas(text.value))))
  }

  // Writing ids back as text, the inverse of parsing.

  function DigitChar(d: nat): (c: char)
    requires d < 10
    ensures IsDigit(c) && c as int - '0' as int == d
  {
    ('0' as int + d) as char
  }

  /** The decimal numeral of `n`, without leading zeros. */
  function ToDecimal(n: nat): (s: string)
    ensures s != [] && AllDigits(s) && DigitsValue(s) == n
  {
    if n < 10 then [DigitChar(n)]
    else
      var s := ToDecimal(n / 10) + [DigitChar(n % 10)];
      assert s[..|s| - 1] == ToDecimal(n / 10);
      s
  }

  /** The ids written as "28,12,99". */
  function FormatGenreIds(ids: seq<nat>): string
  {
    JoinWithComma(seq(|ids|, i requires 0 <= i < |ids| => ToDecimal(ids[i])))
  }

  lemma {:induction false} JoinDigitsAndCommas(parts: seq<string>)
    requires forall i :: 0 <= i < |parts| ==> AllDigits(parts[i])
    ensures DigitsAndCommas(JoinWithComma(parts))
  {
    if |parts| > 1 {
      assert forall i :: 0 <= i < |parts[1..]| ==> parts[1..][i] == parts[i + 1];
      JoinDigitsAndCommas(parts[1..]);
    }
  }

  /** Splitting after a comma-free prefix only lengthens the first piece. */
  lemma {:induction false} SplitAfterPrefix(p: string, t: string)
    requires ',' !in p
    ensures SplitOnComma(p + t) == [p + SplitOnComma(t)[0]] + SplitOnComma(t)[1..]
  {
    if p != [] {
      assert (p + t)[1..] == p[1..] + t;
      assert p[0] != ',' by { assert p[0] in p; }
      SplitAfterPrefix(p[1..], t);
      var st := SplitOnComma(t);
      var rest := SplitOnComma((p + t)[1..]);
      assert rest == [p[1..] + st[0]] + st[1..];
      assert (p + t)[0] == p[0];
      assert SplitOnComma(p + t) == [[p[0]] + rest[0]] + rest[1..];
      assert [p[0]] + (p[1..] + st[0]) == p + st[0];
    } else {
      var st := SplitOnComma(t);
      assert p + t == t && p + st[0] == st[0];
      assert st == [st[0]] + st[1..];
    }
  }

  /** Splitting comma-free parts joined with commas gives back the parts. */
  lemma {:induction false} SplitJoin(parts: seq<string>)
    requires |parts| >= 1
    requires forall i :: 0 <= i < |parts| ==> ',' !in parts[i]
    ensures SplitOnComma(JoinWithComma(parts)) == parts
  {
    if |parts| == 1 {
      SplitAfterPrefix(parts[0], "");
      assert parts[0] + "" == parts[0];
    } else {
      var rest := parts[1..];
      assert forall i :: 0 <= i < |rest| ==> rest[i] == parts[i + 1];
      SplitJoin(rest);
      var t := "," + JoinWithComma(rest);
      assert JoinWithComma(parts) == parts[0] + t;
      SplitAfterPrefix(parts[0], t);
      assert t[1..] == JoinWithComma(rest);
      assert SplitOnComma(t) == [""] + rest;
      assert parts[0] + "" == parts[0];
    }
  }

  /** One written id casts back to itself. */
  lemma CastDecimal(n: nat)
    requires n <= INT64_MAX
    ensures ToDecimal(n) != "" && CastInt64(ToDecimal(n)) == Some(n)
  {
  }

  lemma {:induction false} ParseDecimals(ids: seq<nat>)
    requires forall i :: 0 <= i < |ids| ==> ids[i] <= INT64_MAX
    ensures ParseTokens(seq(|ids|, i requires 0 <= i < |ids| => ToDecimal(ids[i]))) == ids
  {
    var tokens := seq(|ids|, i requires 0 <= i < |ids| => ToDecimal(ids[i]));
    if ids != [] {
      var rest := ids[1..];
      assert tokens[1..] == seq(|rest|, i requires 0 <= i < |rest| => ToDecimal(rest[i]));
      ParseDecimals(rest);
      assert tokens[0] == ToDecimal(ids[0]);
      CastDecimal(ids[0]);
      assert ParseTokens(tokens) == [ids[0]] + ParseTokens(tokens[1..]);
      assert ids == [ids[0]] + rest;
    }
  }

  /**
   * Round trip: a non-empty list of Int64 ids written as comma-separated
   * text parses back to the same list.
   */
  lemma {:induction false} ParseFormattedIds(ids: seq<nat>)
    requires ids != []
    requires forall i :: 0 <= i < |ids| ==> ids[i] <= INT64_MAX
    ensures ParseGenreIds(Some(FormatGenreIds(ids))) == Some(ids)
  {
    var tokens := seq(|ids|, i requires 0 <= i < |ids| => ToDecimal(ids[i]));
    var text := FormatGenreIds(ids);
    JoinDigitsAndCommas(tokens);
    KeepCleanText(text);
    forall i | 0 <= i < |tokens| ensures ',' !in tokens[i] {
      assert AllDigits(tokens[i]);
      assert forall k :: 0 <= k < |tokens[i]| ==> tokens[i][k] != ',';
    }
    SplitJoin(tokens);
    ParseDecimals(ids);
    assert text != "" by {
      assert |text| >= |tokens[0]| by {
        if |tokens| > 1 {
          assert text == tokens[0] + "," + JoinWithComma(tokens[1..]);
        }
      }
    }
  }

  /** The asymmetry of the parser: no ids written out is the empty text, which parses to NULL, not []. */
  lemma NoIdsParseToNull()
    ensures FormatGenreIds([]) == ""
    ensures ParseGenreIds(Some(FormatGenreIds([]))) == None
  {
  }

  /** Text with no digit at all is not NULL: it parses to the empty list. */
  lemma {:induction false} DigitlessTextParsesToEmpty(text: string)
    requires text != ""
    requires forall i :: 0 <= i < |text| ==> !IsDigit(text[i])
    ensures ParseGenreIds(Some(text)) == Some([])
  {
    var cleaned := KeepDigitsAndCommas(text);
    assert forall i :: 0 <= i < |cleaned| ==> cleaned[i] == ',' by {
      CommasOnly(text);
    }
    EmptyPiecesParseToNothing(cleaned);
  }

  lemma {:induction false} CommasOnly(s: string)
    requires forall i :: 0 <= i < |s| ==> !IsDigit(s[i])
    ensures forall i :: 0 <= i < |KeepDigitsAndCommas(s)| ==> KeepDigitsAndCommas(s)[i] == ','
  {
    if s != [] {
      CommasOnly(s[1..]);
    }
  }

  lemma {:induction false} EmptyPiecesParseToNothing(s: string)
    requires forall i :: 0 <= i < |s| ==> s[i] == ','
    ensures ParseTokens(SplitOnComma(s)) == []
  {
    if s != [] {
      EmptyPiecesParseToNothing(s[1..]);
      assert SplitOnComma(s) == [""] + SplitOnComma(s[1..]);
      assert SplitOnComma(s)[1..] == SplitOnComma(s[1..]);
    }
  }

  lemma {:induction false} KeepAppend(a: string, b: string)
    ensures KeepDigitsAndCommas(a + b) == KeepDigitsAndCommas(a) + KeepDigitsAndCommas(b)
  {
    if a != [] {
      assert (a + b)[1..] == a[1..] + b;
      KeepAppend(a[1..], b);
    } else {
      assert a + b == b;
    }
  }

  /** The strip is a filter: characters other than digits and commas vanish. */
  lemma {:induction false} StripJunk(s: string)
    requires forall i :: 0 <= i < |s| ==> !IsDigit(s[i]) && s[i] != ','
    ensures KeepDigitsAndCommas(s) == ""
  {
    if s != [] {
      StripJunk(s[1..]);
    }
  }

  /** Parsing the tokens is a filter too: a concatenation parses part by part. */
  lemma {:induction false} ParseTokensAppend(a: seq<string>, b: seq<string>)
    ensures ParseTokens(a + b) == ParseTokens(a) + ParseTokens(b)
  {
    if a != [] {
      assert (a + b)[1..] == a[1..] + b;
      ParseTokensAppend(a[1..], b);
    } else {
      assert a + b == b;
    }
  }

  /** A single token yields its cast when the cast succeeds, and nothing otherwise (the empty token included). */
  lemma ParseOneToken(t: string)
    ensures ParseTokens([t]) == if CastInt64(t).Some? then [CastInt64(t).value] else []
  {
    assert [t][1..] == [];
  }

  /**
   * Whatever the text, once stripped, splits into the comma-free pieces
   * `pieces`, the ids are what those pieces parse to, empty pieces included.
   */
  lemma ParseStrippedPieces(t: string, pieces: seq<string>)
    requires t != ""
    requires |pieces| >= 1
    requires forall i :: 0 <= i < |pieces| ==> ',' !in pieces[i]
    requires KeepDigitsAndCommas(t) == JoinWithComma(pieces)
    ensures ParseGenreIds(Some(t)) == Some(ParseTokens(pieces))
  {
    SplitJoin(pieces);
  }

  /** Any non-empty text that strips down to the canonical form of `ids` parses to `ids`. */
  lemma ParseStrippedIds(t: string, ids: seq<nat>)
    requires t != ""
    requires forall i :: 0 <= i < |ids| ==> ids[i] <= INT64_MAX
    requires KeepDigitsAndCommas(t) == FormatGenreIds(ids)
    ensures ParseGenreIds(Some(t)) == Some(ids)
  {
    if ids == [] {
      assert SplitOnComma("") == [""];
    } else {
      ParseFormattedIds(ids);
      KeepCleanText(KeepDigitsAndCommas(t));
    }
  }

  /** Parts joined with ", ", as a Python list prints its items. */
  function JoinWithCommaSpace(parts: seq<string>): string
  {
    if parts == [] then ""
    else if |parts| == 1 then parts[0]
    else parts[0] + ", " + JoinWithCommaSpace(parts[1..])
  }

  /** The ids printed as a list, such as "[28, 12]": the form GENRE_IDS arrives in. */
  function ListText(ids: seq<nat>): string
  {
    "[" + JoinWithCommaSpace(seq(|ids|, i requires 0 <= i < |ids| => ToDecimal(ids[i]))) + "]"
  }

  lemma {:induction false} StripCommaSpace(parts: seq<string>)
    requires forall i :: 0 <= i < |parts| ==> AllDigits(parts[i])
    ensures KeepDigitsAndCommas(JoinWithCommaSpace(parts)) == JoinWithComma(parts)
  {
    if |parts| == 1 {
      KeepCleanText(parts[0]);
    } else if |parts| > 1 {
      var rest := parts[1..];
      assert forall i :: 0 <= i < |rest| ==> rest[i] == parts[i + 1];
      StripCommaSpace(rest);
      KeepAppend(parts[0] + ", ", JoinWithCommaSpace(rest));
      KeepAppend(parts[0], ", ");
      KeepCleanText(parts[0]);
      assert KeepDigitsAndCommas(", ") == ",";
    }
  }

  /** Round trip on the real input format: a list of Int64 ids printed as "[28, 12]" parses back to itself, [] included. */
  lemma ParseListText(ids: seq<nat>)
    requires forall i :: 0 <= i < |ids| ==> ids[i] <= INT64_MAX
    ensures ParseGenreIds(Some(ListText(ids))) == Some(ids)
  {
    var tokens := seq(|ids|, i requires 0 <= i < |ids| => ToDecimal(ids[i]));
    var inner := JoinWithCommaSpace(tokens);
    StripCommaSpace(tokens);
    KeepAppend("[" + inner, "]");
    KeepAppend("[", inner);
    assert KeepDigitsAndCommas("[") == "" && KeepDigitsAndCommas("]") == "";
    ParseStrippedIds(ListText(ids), ids);
  }

  lemma SplitAfterComma(t: string)
    ensures SplitOnComma("," + t) == [""] + SplitOnComma(t)
  {
    assert ("," + t)[1..] == t;
  }

  lemma StripDigitPieces()
    ensures KeepDigitsAndCommas("28") == "28" && KeepDigitsAndCommas("12") == "12" && KeepDigitsAndCommas("99") == "99"
  {
  }

  lemma StripSpacePiece()
    ensures KeepDigitsAndCommas(",, ") == ",,"
  {
    KeepAppend(",", ", ");
  }

  lemma StripLetterPiece()
    ensures KeepDigitsAndCommas(",abc,") == ",,"
  {
    KeepAppend(",", "abc,");
    KeepAppend("abc", ",");
  }

  lemma StripExample()
    ensures KeepDigitsAndCommas("28,, 12,abc,99") == "28" + ",," + "12" + ",," + "99"
  {
    var text := "28" + ",, " + "12" + ",abc," + "99";
    assert text == "28,, 12,abc,99";
    StripDigitPieces();
    StripSpacePiece();
    StripLetterPiece();
    KeepAppend("28" + ",, " + "12" + ",abc,", "99");
    KeepAppend("28" + ",, " + "12", ",abc,");
    KeepAppend("28" + ",, ", "12");
    KeepAppend("28", ",, ");
  }

  lemma SplitExampleTail()
    ensures SplitOnComma("," + ("," + "99")) == ["", "", "99"]
  {
    SplitAfterPrefix("99", "");
    assert "99" + "" == "99";
    SplitAfterComma("99");
    SplitAfterComma("," + "99");
  }

  lemma SplitExampleMiddle()
    ensures SplitOnComma("," + ("," + ("12" + ("," + ("," + "99"))))) == ["", "", "12", "", "99"]
  {
    var t3 := "," + ("," + "99");
    SplitExampleTail();
    SplitAfterPrefix("12", t3);
    assert "12" + "" == "12";
    assert SplitOnComma("12" + t3) == ["12", "", "99"];
    SplitAfterComma("12" + t3);
    SplitAfterComma("," + ("12" + t3));
  }

  lemma SplitExample()
    ensures SplitOnComma("28" + ",," + "12" + ",," + "99") == ["28", "", "12", "", "99"]
  {
    var t0 := "," + ("," + ("12" + ("," + ("," + "99"))));
    assert "28" + ",," + "12" + ",," + "99" == "28" + t0;
    SplitExampleMiddle();
    SplitAfterPrefix("28", t0);
    assert "28" + "" == "28";
  }

  lemma TokenValues()
    ensures CastInt64("28") == Some(28) && CastInt64("12") == Some(12) && CastInt64("99") == Some(99)
  {
    assert DigitsValue("28") == 28;
    assert DigitsValue("12") == 12;
    assert DigitsValue("99") == 99;
  }

  lemma TokensExample()
    ensures ParseTokens(["28", "", "12", "", "99"]) == [28, 12, 99]
  {
    TokenValues();
    var tokens := ["28", "", "12", "", "99"];
    assert ParseTokens(tokens[4..]) == [99];
    assert ParseTokens(tokens[3..]) == [99];
    assert ParseTokens(tokens[2..]) == [12, 99];
    assert ParseTokens(tokens[1..]) == [12, 99];
  }

  /** The worked example: empty and non-numeric tokens are dropped, order is kept. */
  lemma ParseExample()
    ensures ParseGenreIds(Some("28,, 12,abc,99")) == Some([28, 12, 99])
  {
    StripExample();
    SplitExample();
    TokensExample();
  }

  // ---------------------------------------------------------------------------
  // Explode, join to the genres, collect per row, rejoin to the films

  /** The `genre_ids` column of every kept film. */
  function WithGenreIds(kept: seq<Film>): seq<ParsedFilm>
  {
    seq(|kept|, i requires 0 <= i < |kept| => ParsedFilm(kept[i], ParseGenreIds(kept[i].genreIdsText)))
  }

  /** One (row, id) pair per id, in list order. */
  function RowPairs(ids: seq<int>, row: nat): seq<IdPair>
  {
    if ids == [] then [] else [IdPair(row, ids[0])] + RowPairs(ids[1..], row)
  }

  /** The exploded pairs of the film at `row`; a NULL or empty list is filtered out first. */
  function ExplodeRow(ids: Option<seq<int>>, row: nat): seq<IdPair>
  {
    if ids.None? || |ids.value| == 0 then [] else RowPairs(ids.value, row)
  }

  /** Row numbering from `row` on, NULL/empty filter and explode, over all the films. */
  function Explode(parsed: seq<ParsedFilm>, row: nat): seq<IdPair>
  {
    if parsed == [] then [] else ExplodeRow(parsed[0].genreIds, row) + Explode(parsed[1..], row + 1)
  }

  function PairKey(p: IdPair): Option<int>
  {
    Some(p.genreId)
  }

  function GenreKey(g: Genre): Option<int>
  {
    g.id
  }

  /** Keeps (row_nr, genre_name) of a joined pair; the name is NULL when no genre matched. */
  function NameOf(j: (IdPair, Option<Genre>)): NamePair
  {
    NamePair(j.0.row, if j.1.Some? then j.1.value.name else None)
  }

  /** The (row_nr, genre_name) columns of the exploded pairs left-joined to the genres. */
  function NamesOfJoined(joined: seq<(IdPair, Option<Genre>)>): seq<NamePair>
  {
    seq(|joined|, i requires 0 <= i < |joined| => NameOf(joined[i]))
  }

  /**
   * The exploded pairs left-joined to the genres on genre_ids = genre_id, pair
   * by pair: each pair yields its id's genre names, or one NULL when no genre
   * has that id. `LookupGenresIsLeftJoin` shows this is the left join.
   */
  function LookupGenres(exploded: seq<IdPair>, genres: seq<Genre>): seq<NamePair>
  {
    if exploded == [] then []
    else UnderRow(exploded[0].row, ResolveId(genres, exploded[0].genreId)) + LookupGenres(exploded[1..], genres)
  }

  /** The names of row `r`, in joined-row order. */
  function NamesOf(joined: seq<NamePair>, r: nat): seq<Option<string>>
  {
    if joined == [] then []
    else (if joined[0].row == r then [joined[0].genreName] else []) + NamesOf(joined[1..], r)
  }

  /** A row collects names exactly when some joined pair belongs to it. */
  lemma {:induction false} NamesOfPresent(joined: seq<NamePair>, r: nat)
    ensures NamesOf(joined, r) != [] <==> exists i :: 0 <= i < |joined| && joined[i].row == r
  {
    if joined != [] {
      NamesOfPresent(joined[1..], r);
      assert (exists i :: 0 <= i < |joined[1..]| && joined[1..][i].row == r) ==>
             (exists i :: 0 <= i < |joined| && joined[i].row == r);
      assert (exists i :: 1 <= i < |joined| && joined[i].row == r) ==>
             (exists i :: 0 <= i < |joined[1..]| && joined[1..][i].row == r);
    }
  }

  /** A bound on the row numbers present. */
  function RowBound(joined: seq<NamePair>): (n: nat)
    ensures forall i :: 0 <= i < |joined| ==> joined[i].row < n
  {
    if joined == [] then 0
    else
      var m := RowBound(joined[1..]);
      assert forall i :: 1 <= i < |joined| ==> joined[i] == joined[1..][i - 1];
      if joined[0].row + 1 > m then joined[0].row + 1 else m
  }

  ghost predicate HasRow(groups: seq<RowNames>, r: nat)
  {
    exists i :: 0 <= i < |groups| && groups[i].row == r
  }

  /** The groups of rows r, r+1, ..., n-1 that have names, in row order. */
  function GroupFrom(joined: seq<NamePair>, r: nat, n: nat): seq<RowNames>
    decreases n - r
  {
    if r >= n then []
    else
      var names := NamesOf(joined, r);
      (if names != [] then [RowNames(r, names)] else []) + GroupFrom(joined, r + 1, n)
  }

  /** `group_by("row_nr").agg("genre_name").sort("row_nr")`: one group per row present. */
  function GroupByRow(joined: seq<NamePair>): seq<RowNames>
  {
    GroupFrom(joined, 0, RowBound(joined))
  }

  /** The groups are sorted by row and hold that row's names, and no group is empty. */
  ghost predicate WellGrouped(joined: seq<NamePair>, groups: seq<RowNames>, r: nat)
  {
    && (forall i :: 0 <= i < |groups| ==> r <= groups[i].row)
    && (forall i, j :: 0 <= i < j < |groups| ==> groups[i].row < groups[j].row)
    && (forall i :: 0 <= i < |groups| ==> groups[i].names == NamesOf(joined, groups[i].row) != [])
  }

  lemma {:induction false} GroupFromSorted(joined: seq<NamePair>, r: nat, n: nat)
    decreases n - r
    ensures WellGrouped(joined, GroupFrom(joined, r, n), r)
  {
    if r < n {
      GroupFromSorted(joined, r + 1, n);
    }
  }

  lemma GroupFromHead(joined: seq<NamePair>, r: nat, n: nat)
    requires r < n && NamesOf(joined, r) != []
    ensures HasRow(GroupFrom(joined, r, n), r)
  {
    var groups := GroupFrom(joined, r, n);
    assert groups == [RowNames(r, NamesOf(joined, r))] + GroupFrom(joined, r + 1, n);
    assert groups[0].row == r;
  }

  lemma GroupFromTail(joined: seq<NamePair>, r: nat, n: nat, q: nat)
    requires r < n && HasRow(GroupFrom(joined, r + 1, n), q)
    ensures HasRow(GroupFrom(joined, r, n), q)
  {
    var rest := GroupFrom(joined, r + 1, n);
    var groups := GroupFrom(joined, r, n);
    var i :| 0 <= i < |rest| && rest[i].row == q;
    assert groups[|groups| - |rest| + i] == rest[i];
  }

  lemma {:induction false} GroupFromCovers(joined: seq<NamePair>, r: nat, n: nat, q: nat)
    decreases n - r
    requires r <= q < n && NamesOf(joined, q) != []
    ensures HasRow(GroupFrom(joined, r, n), q)
  {
    if q == r {
      GroupFromHead(joined, r, n);
    } else {
      GroupFromCovers(joined, r + 1, n, q);
      GroupFromTail(joined, r, n, q);
      assert HasRow(GroupFrom(joined, r, n), q);
    }
  }

  lemma {:induction false} GroupFromOnlyPresent(joined: seq<NamePair>, r: nat, n: nat, q: nat)
    requires HasRow(GroupFrom(joined, r, n), q)
    ensures NamesOf(joined, q) != []
  {
    GroupFromSorted(joined, r, n);
    var groups := GroupFrom(joined, r, n);
    var i :| 0 <= i < |groups| && groups[i].row == q;
  }

  /**
   * The grouping is sorted by row number, each group holds exactly the names of
   * its row in joined order, and a row has a group exactly when it has names.
   */
  lemma GroupByRowCorrect(joined: seq<NamePair>)
    ensures forall i, j :: 0 <= i < j < |GroupByRow(joined)| ==> GroupByRow(joined)[i].row < GroupByRow(joined)[j].row
    ensures forall i :: 0 <= i < |GroupByRow(joined)| ==>
      GroupByRow(joined)[i].names == NamesOf(joined, GroupByRow(joined)[i].row) != []
    ensures forall r: nat :: HasRow(GroupByRow(joined), r) <==> NamesOf(joined, r) != []
  {
    GroupFromSorted(joined, 0, RowBound(joined));
    forall r: nat ensures HasRow(GroupByRow(joined), r) <==> NamesOf(joined, r) != [] {
      if NamesOf(joined, r) != [] {
        NamesOfPresent(joined, r);
        var i :| 0 <= i < |joined| && joined[i].row == r;
        GroupFromCovers(joined, 0, RowBound(joined), r);
      }
      if HasRow(GroupByRow(joined), r) {
        GroupFromOnlyPresent(joined, 0, RowBound(joined), r);
      }
    }
  }

  function Number(parsed: seq<ParsedFilm>): seq<NumberedFilm>
  {
    seq(|parsed|, i requires 0 <= i < |parsed| => NumberedFilm(i, parsed[i]))
  }

  function FilmRowKey(f: NumberedFilm): Option<nat>
  {
    Some(f.row)
  }

  function GroupRowKey(g: RowNames): Option<nat>
  {
    Some(g.row)
  }

  /** Drops row_nr and fills a NULL `genre_name` with the empty list. */
  function Enriched(j: (NumberedFilm, Option<RowNames>)): EnrichedFilm
  {
    EnrichedFilm(j.0.parsed.film, j.0.parsed.genreIds, if j.1.Some? then j.1.value.names else [])
  }

  /** The numbered films left-joined to the grouped names on row_nr. */
  function Rejoin(parsed: seq<ParsedFilm>, groups: seq<RowNames>): seq<EnrichedFilm>
  {
    var joined := LeftJoin(Number(parsed), groups, FilmRowKey, GroupRowKey);
    seq(|joined|, i requires 0 <= i < |joined| => Enriched(joined[i]))
  }

  /** The whole enrichment of the films table. */
  function MapGenres(films: seq<Film>, genres: seq<Genre>): seq<EnrichedFilm>
  {
    var parsed := WithGenreIds(DropIncomplete(films));
    var exploded := Explode(parsed, 0);
    var genreNames := if |exploded| > 0 then GroupByRow(LookupGenres(exploded, genres)) else [];
    Rejoin(parsed, genreNames)
  }

  // ---------------------------------------------------------------------------
  // What each film is owed

  /** The names of the genres whose id is `id`, in genres-table order. */
  function GenreNamesFor(genres: seq<Genre>, id: int): seq<Option<string>>
  {
    if genres == [] then []
    else (if genres[0].id == Some(id) then [genres[0].name] else []) + GenreNamesFor(genres[1..], id)
  }

  /** What a left join yields for one id: each matching genre's name, or a single NULL. */
  function ResolveId(genres: seq<Genre>, id: int): seq<Option<string>>
  {
    var ns := GenreNamesFor(genres, id);
    if ns == [] then [None] else ns
  }

  function ResolvedNames(genres: seq<Genre>, ids: seq<int>): seq<Option<string>>
  {
    if ids == [] then [] else ResolveId(genres, ids[0]) + ResolvedNames(genres, ids[1..])
  }

  /** The `genre_name` list a film with these `genre_ids` is owed: [] when they are NULL. */
  function ExpectedNames(genres: seq<Genre>, ids: Option<seq<int>>): seq<Option<string>>
  {
    if ids.None? then [] else ResolvedNames(genres, ids.value)
  }

  /** A kept film as the enrichment should return it. */
  function Owed(f: Film, genres: seq<Genre>): EnrichedFilm
  {
    var ids := ParseGenreIds(f.genreIdsText);
    EnrichedFilm(f, ids, ExpectedNames(genres, ids))
  }

  /** The name of the genre with this id, NULL when there is none. */
  function GenreName(genres: seq<Genre>, id: int): Option<string>
  {
    var ns := GenreNamesFor(genres, id);
    if ns == [] then None else ns[0]
  }

  lemma NamesOfJoinedAppend(x: seq<(IdPair, Option<Genre>)>, y: seq<(IdPair, Option<Genre>)>)
    ensures NamesOfJoined(x + y) == NamesOfJoined(x) + NamesOfJoined(y)
  {
    var l, r := NamesOfJoined(x + y), NamesOfJoined(x) + NamesOfJoined(y);
    assert |l| == |r|;
    forall i | 0 <= i < |l| ensures l[i] == r[i] {
      if i < |x| {
        assert (x + y)[i] == x[i];
      } else {
        assert (x + y)[i] == y[i - |x|];
      }
    }
  }

  lemma {:induction false} LookupGenresAppend(a: seq<IdPair>, b: seq<IdPair>, genres: seq<Genre>)
    ensures LookupGenres(a + b, genres) == LookupGenres(a, genres) + LookupGenres(b, genres)
  {
    if a != [] {
      assert (a + b)[1..] == a[1..] + b;
      assert (a + b)[0] == a[0];
      LookupGenresAppend(a[1..], b, genres);
    } else {
      assert a + b == b;
    }
  }

  lemma {:induction false} NamesOfAppend(a: seq<NamePair>, b: seq<NamePair>, r: nat)
    ensures NamesOf(a + b, r) == NamesOf(a, r) + NamesOf(b, r)
  {
    if a != [] {
      assert (a + b)[1..] == a[1..] + b;
      NamesOfAppend(a[1..], b, r);
    } else {
      assert a + b == b;
    }
  }

  lemma {:induction false} MatchedNames(p: IdPair, genres: seq<Genre>)
    ensures var ms := Matches(p, genres, PairKey, GenreKey);
      seq(|ms|, k requires 0 <= k < |ms| => ms[k].name) == GenreNamesFor(genres, p.genreId)
  {
    if genres != [] {
      MatchedNames(p, genres[1..]);
    }
  }

  /** Names, each paired with the same row. */
  function UnderRow(row: nat, names: seq<Option<string>>): seq<NamePair>
  {
    seq(|names|, k requires 0 <= k < |names| => NamePair(row, names[k]))
  }

  /** The `genre_name` list each film is owed, film by film. */
  function OwedNames(parsed: seq<ParsedFilm>, genres: seq<Genre>): seq<seq<Option<string>>>
  {
    seq(|parsed|, k requires 0 <= k < |parsed| => ExpectedNames(genres, parsed[k].genreIds))
  }

  /** What explode-and-join must produce: each film's owed names under its row, film after film. */
  function ExpectedPairs(owed: seq<seq<Option<string>>>, base: nat): seq<NamePair>
  {
    if owed == [] then [] else UnderRow(base, owed[0]) + ExpectedPairs(owed[1..], base + 1)
  }

  lemma UnderRowAppend(row: nat, a: seq<Option<string>>, b: seq<Option<string>>)
    ensures UnderRow(row, a + b) == UnderRow(row, a) + UnderRow(row, b)
  {
    var l, r := UnderRow(row, a + b), UnderRow(row, a) + UnderRow(row, b);
    assert |l| == |r|;
    forall k | 0 <= k < |l| ensures l[k] == r[k] {
      if k < |a| {
        assert (a + b)[k] == a[k];
      } else {
        assert (a + b)[k] == b[k - |a|];
      }
    }
  }

  /** One exploded pair joins to its id's genre names, or to one NULL, all under its row. */
  lemma JoinOnePair(p: IdPair, genres: seq<Genre>)
    ensures NamesOfJoined(JoinRow(p, genres, PairKey, GenreKey)) == UnderRow(p.row, ResolveId(genres, p.genreId))
  {
    var js := NamesOfJoined(JoinRow(p, genres, PairKey, GenreKey));
    JoinRowShape(p, genres, PairKey, GenreKey);
    MatchedNames(p, genres);
    var expected := ResolveId(genres, p.genreId);
    assert |js| == |expected|;
    assert forall k :: 0 <= k < |js| ==> js[k] == NamePair(p.row, expected[k]);
  }

  /**
   * The lookup is the left join of the exploded pairs with the genres on
   * genre_ids = genre_id, keeping (row_nr, genre_name): a NULL name where no
   * genre matched.
   */
  lemma {:induction false} LookupGenresIsLeftJoin(exploded: seq<IdPair>, genres: seq<Genre>)
    ensures LookupGenres(exploded, genres) == NamesOfJoined(LeftJoin(exploded, genres, PairKey, GenreKey))
  {
    if exploded != [] {
      var head := JoinRow(exploded[0], genres, PairKey, GenreKey);
      var tail := LeftJoin(exploded[1..], genres, PairKey, GenreKey);
      assert LeftJoin(exploded, genres, PairKey, GenreKey) == head + tail;
      NamesOfJoinedAppend(head, tail);
      JoinOnePair(exploded[0], genres);
      LookupGenresIsLeftJoin(exploded[1..], genres);
    } else {
      assert NamesOfJoined([]) == [];
    }
  }

  lemma {:induction false} LookupRowPairs(ids: seq<int>, row: nat, genres: seq<Genre>)
    ensures LookupGenres(RowPairs(ids, row), genres) == UnderRow(row, ResolvedNames(genres, ids))
  {
    if ids != [] {
      var pairs := RowPairs(ids, row);
      assert pairs[0] == IdPair(row, ids[0]);
      assert pairs[1..] == RowPairs(ids[1..], row);
      LookupRowPairs(ids[1..], row, genres);
      UnderRowAppend(row, ResolveId(genres, ids[0]), ResolvedNames(genres, ids[1..]));
    } else {
      assert UnderRow(row, []) == [];
    }
  }

  /** One film's exploded pairs join to the names it is owed, all under its row. */
  lemma ExplodeRowLookup(ids: Option<seq<int>>, row: nat, genres: seq<Genre>)
    ensures LookupGenres(ExplodeRow(ids, row), genres) == UnderRow(row, ExpectedNames(genres, ids))
  {
    if ids.Some? && |ids.value| != 0 {
      LookupRowPairs(ids.value, row, genres);
    } else {
      assert LookupGenres([], genres) == [];
    }
  }

  /**
   * Explode then left join: the joined (row_nr, genre_name) table is exactly
   * each film's owed names under its row, in film order.
   */
  lemma {:induction false} LookupExplodedPairs(parsed: seq<ParsedFilm>, base: nat, genres: seq<Genre>)
    ensures LookupGenres(Explode(parsed, base), genres) == ExpectedPairs(OwedNames(parsed, genres), base)
  {
    if parsed != [] {
      var head := ExplodeRow(parsed[0].genreIds, base);
      var tail := Explode(parsed[1..], base + 1);
      assert Explode(parsed, base) == head + tail;
      LookupGenresAppend(head, tail, genres);
      ExplodeRowLookup(parsed[0].genreIds, base, genres);
      LookupExplodedPairs(parsed[1..], base + 1, genres);
      var owed := OwedNames(parsed, genres);
      assert OwedNames(parsed[1..], genres) == owed[1..];
      assert owed[0] == ExpectedNames(genres, parsed[0].genreIds);
    } else {
      assert LookupGenres([], genres) == [];
    }
  }

  lemma {:induction false} NamesOfUnderRow(row: nat, names: seq<Option<string>>, r: nat)
    ensures NamesOf(UnderRow(row, names), r) == if r == row then names else []
  {
    if names != [] {
      var rest := UnderRow(row, names[1..]);
      assert UnderRow(row, names) == [NamePair(row, names[0])] + rest;
      assert (UnderRow(row, names))[1..] == rest;
      NamesOfUnderRow(row, names[1..], r);
      assert names == [names[0]] + names[1..];
    }
  }

  /** The names row `r` collects split into those of the first film and those of the rest. */
  lemma ExpectedNamesSplit(owed: seq<seq<Option<string>>>, base: nat, r: nat)
    requires owed != []
    ensures NamesOf(ExpectedPairs(owed, base), r) ==
      (if r == base then owed[0] else []) + NamesOf(ExpectedPairs(owed[1..], base + 1), r)
  {
    NamesOfAppend(UnderRow(base, owed[0]), ExpectedPairs(owed[1..], base + 1), r);
    NamesOfUnderRow(base, owed[0], r);
  }

  /** A row outside the films' row range collects no names. */
  lemma {:induction false} ExpectedOutside(owed: seq<seq<Option<string>>>, base: nat, r: nat)
    requires r < base || base + |owed| <= r
    ensures NamesOf(ExpectedPairs(owed, base), r) == []
  {
    if owed != [] {
      ExpectedNamesSplit(owed, base, r);
      ExpectedOutside(owed[1..], base + 1, r);
    }
  }

  /** The first film's row collects exactly the names it is owed. */
  lemma ExpectedFirst(owed: seq<seq<Option<string>>>, base: nat)
    requires owed != []
    ensures NamesOf(ExpectedPairs(owed, base), base) == owed[0]
  {
    ExpectedNamesSplit(owed, base, base);
    ExpectedOutside(owed[1..], base + 1, base);
  }

  /** A row after the first film's collects nothing from the first film. */
  lemma ExpectedLater(owed: seq<seq<Option<string>>>, base: nat, r: nat)
    requires owed != [] && base < r
    ensures NamesOf(ExpectedPairs(owed, base), r) == NamesOf(ExpectedPairs(owed[1..], base + 1), r)
  {
    ExpectedNamesSplit(owed, base, r);
    assert [] + NamesOf(ExpectedPairs(owed[1..], base + 1), r) == NamesOf(ExpectedPairs(owed[1..], base + 1), r);
  }

  /** The row of each film collects exactly the names it is owed. */
  lemma {:induction false} ExpectedInside(owed: seq<seq<Option<string>>>, base: nat, r: nat)
    requires base <= r < base + |owed|
    ensures NamesOf(ExpectedPairs(owed, base), r) == owed[r - base]
  {
    if r == base {
      ExpectedFirst(owed, base);
    } else {
      ExpectedLater(owed, base, r);
      ExpectedInside(owed[1..], base + 1, r);
      assert owed[1..][r - (base + 1)] == owed[r - base];
    }
  }

  /** Exploding and joining hands every film's row exactly the names its own ids resolve to. */
  lemma LookupExploded(parsed: seq<ParsedFilm>, genres: seq<Genre>, i: nat)
    requires i < |parsed|
    ensures NamesOf(LookupGenres(Explode(parsed, 0), genres), i) == ExpectedNames(genres, parsed[i].genreIds)
  {
    LookupExplodedPairs(parsed, 0, genres);
    ExpectedInside(OwedNames(parsed, genres), 0, i);
  }

  /** `e` is film `p` with the names of the group for row `i`, or [] when there is none. */
  ghost predicate RejoinedRow(e: EnrichedFilm, p: ParsedFilm, groups: seq<RowNames>, i: nat)
  {
    && e.film == p.film
    && e.genreIds == p.genreIds
    && (!HasRow(groups, i) ==> e.genreNames == [])
    && (forall g :: 0 <= g < |groups| && groups[g].row == i ==> e.genreNames == groups[g].names)
  }

  lemma SameRowSameGroup(groups: seq<RowNames>, g: nat, h: nat)
    requires forall a, b :: 0 <= a < b < |groups| ==> groups[a].row < groups[b].row
    requires g < |groups| && h < |groups| && groups[g].row == groups[h].row
    ensures g == h
  {
  }

  /** The row_nr join finds row i's group, or nothing when row i has none. */
  lemma RejoinMatch(parsed: seq<ParsedFilm>, groups: seq<RowNames>, i: nat)
    requires i < |parsed|
    requires forall a, b :: 0 <= a < b < |groups| ==> groups[a].row < groups[b].row
    ensures var ms := Matches(Number(parsed)[i], groups, FilmRowKey, GroupRowKey);
      && |ms| <= 1
      && RejoinedRow(Enriched((Number(parsed)[i], if ms == [] then None else Some(ms[0]))), parsed[i], groups, i)
  {
    var f := Number(parsed)[i];
    var ms := Matches(f, groups, FilmRowKey, GroupRowKey);
    assert UniqueKeys(groups, GroupRowKey);
    UniqueKeysMatchAtMostOnce(f, groups, FilmRowKey, GroupRowKey);
    var e := Enriched((f, if ms == [] then None else Some(ms[0])));
    MatchesMembers(f, groups, FilmRowKey, GroupRowKey);
    if ms != [] {
      assert KeysMatch(FilmRowKey(f), GroupRowKey(ms[0]));
      var g0 :| 0 <= g0 < |groups| && groups[g0] == ms[0];
      forall g | 0 <= g < |groups| && groups[g].row == i ensures e.genreNames == groups[g].names {
        SameRowSameGroup(groups, g, g0);
      }
    } else {
      forall g | 0 <= g < |groups| ensures groups[g].row != i {
        assert groups[g] !in ms;
      }
    }
  }

  /** Rejoining on the unique row_nr keeps every film once and in order, with its group's names or []. */
  lemma RejoinKeepsFilms(parsed: seq<ParsedFilm>, groups: seq<RowNames>)
    requires forall i, j :: 0 <= i < j < |groups| ==> groups[i].row < groups[j].row
    ensures |Rejoin(parsed, groups)| == |parsed|
    ensures forall i :: 0 <= i < |parsed| ==> RejoinedRow(Rejoin(parsed, groups)[i], parsed[i], groups, i)
  {
    var numbered := Number(parsed);
    forall i | 0 <= i < |numbered| ensures |Matches(numbered[i], groups, FilmRowKey, GroupRowKey)| <= 1 {
      RejoinMatch(parsed, groups, i);
    }
    LeftJoinAtMostOneMatch(numbered, groups, FilmRowKey, GroupRowKey);
    forall i | 0 <= i < |parsed| ensures RejoinedRow(Rejoin(parsed, groups)[i], parsed[i], groups, i) {
      RejoinMatch(parsed, groups, i);
    }
  }

  /**
   * The enrichment keeps every film with a release date and an overview,
   * exactly once and in order, with its own columns and its `genre_ids`
   * unchanged, and gives it the `genre_name` list its ids resolve to
   * through the genres table: [] when `genre_ids` is NULL or empty.
   */
  lemma MapGenresEnriches(films: seq<Film>, genres: seq<Genre>)
    ensures var kept := DropIncomplete(films);
      && |MapGenres(films, genres)| == |kept|
      && forall i :: 0 <= i < |kept| ==> MapGenres(films, genres)[i] == Owed(kept[i], genres)
  {
    var kept := DropIncomplete(films);
    var parsed := WithGenreIds(kept);
    var exploded := Explode(parsed, 0);
    var joined := LookupGenres(exploded, genres);
    var groups := if |exploded| > 0 then GroupByRow(joined) else [];
    GroupByRowCorrect(joined);
    RejoinKeepsFilms(parsed, groups);
    forall i | 0 <= i < |kept| ensures MapGenres(films, genres)[i] == Owed(kept[i], genres) {
      assert parsed[i].film == kept[i];
      EnrichedRow(parsed, genres, groups, MapGenres(films, genres)[i], i);
    }
  }

  /** Row i of the enrichment, given that the rejoin gave it the names of its group. */
  lemma EnrichedRow(parsed: seq<ParsedFilm>, genres: seq<Genre>, groups: seq<RowNames>, e: EnrichedFilm, i: nat)
    requires i < |parsed|
    requires groups == if |Explode(parsed, 0)| > 0 then GroupByRow(LookupGenres(Explode(parsed, 0), genres)) else []
    requires RejoinedRow(e, parsed[i], groups, i)
    ensures e == EnrichedFilm(parsed[i].film, parsed[i].genreIds, ExpectedNames(genres, parsed[i].genreIds))
  {
    var exploded := Explode(parsed, 0);
    var joined := LookupGenres(exploded, genres);
    LookupExploded(parsed, genres, i);
    assert NamesOf(joined, i) == ExpectedNames(genres, parsed[i].genreIds);
    if |exploded| > 0 {
      GroupByRowCorrect(joined);
      if HasRow(groups, i) {
        var g :| 0 <= g < |groups| && groups[g].row == i;
        assert e.genreNames == groups[g].names;
      } else {
        assert NamesOf(joined, i) == [];
      }
    } else {
      assert joined == [];
    }
  }

  /** A film whose `genre_ids` is NULL (NULL or empty text) or [] is owed an empty `genre_name`. */
  lemma NoIdsNoNames(f: Film, genres: seq<Genre>)
    ensures f.genreIdsText.None? || f.genreIdsText == Some("") ==>
      Owed(f, genres).genreIds.None? && Owed(f, genres).genreNames == []
    ensures Owed(f, genres).genreIds == Some([]) ==> Owed(f, genres).genreNames == []
  {
    var ids := ParseGenreIds(f.genreIdsText);
    assert ids.None? ==> ExpectedNames(genres, ids) == [];
    assert ids == Some([]) ==> ExpectedNames(genres, ids) == ResolvedNames(genres, []);
  }

  lemma {:induction false} AbsentGenreName(genres: seq<Genre>, id: int)
    requires forall j :: 0 <= j < |genres| ==> genres[j].id != Some(id)
    ensures GenreNamesFor(genres, id) == []
  {
    if genres != [] {
      AbsentGenreName(genres[1..], id);
    }
  }

  lemma {:induction false} UniqueGenreIdsMatchOnce(genres: seq<Genre>, id: int)
    requires UniqueKeys(genres, GenreKey)
    ensures |GenreNamesFor(genres, id)| <= 1
  {
    if genres != [] {
      var rest := genres[1..];
      assert UniqueKeys(rest, GenreKey) by {
        forall i, j | 0 <= i < j < |rest| ensures !KeysMatch(GenreKey(rest[i]), GenreKey(rest[j])) {
          assert rest[i] == genres[i + 1] && rest[j] == genres[j + 1];
        }
      }
      UniqueGenreIdsMatchOnce(rest, id);
      if genres[0].id == Some(id) {
        forall j | 0 <= j < |rest| ensures rest[j].id != Some(id) {
          assert !KeysMatch(GenreKey(genres[0]), GenreKey(genres[j + 1]));
        }
        AbsentGenreName(rest, id);
      }
    }
  }

  /** With unique genre ids, one id resolves to exactly one entry: its name, or NULL. */
  lemma UniqueIdResolvesToName(genres: seq<Genre>, id: int)
    requires UniqueKeys(genres, GenreKey)
    ensures ResolveId(genres, id) == [GenreName(genres, id)]
  {
    UniqueGenreIdsMatchOnce(genres, id);
  }

  /**
   * With unique genre ids, a film's `genre_name` lines up with its `genre_ids`:
   * same length, and position k holds the name of id k, or NULL when the
   * genres table has no such id.
   */
  lemma {:induction false} UniqueGenresAlign(genres: seq<Genre>, ids: seq<int>)
    requires UniqueKeys(genres, GenreKey)
    ensures |ResolvedNames(genres, ids)| == |ids|
    ensures forall k :: 0 <= k < |ids| ==> ResolvedNames(genres, ids)[k] == GenreName(genres, ids[k])
  {
    if ids != [] {
      UniqueIdResolvesToName(genres, ids[0]);
      UniqueGenresAlign(genres, ids[1..]);
      assert ResolvedNames(genres, ids) == [GenreName(genres, ids[0])] + ResolvedNames(genres, ids[1..]);
      forall k | 0 <= k < |ids| ensures ResolvedNames(genres, ids)[k] == GenreName(genres, ids[k]) {
        if k > 0 {
          assert ids[1..][k - 1] == ids[k];
        }
      }
    }
  }
}

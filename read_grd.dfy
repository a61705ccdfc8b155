/**
 * The grid-file loader (`read_grd`): the text of a DMol3 `.grd` file becomes a category
 * label, six lattice constants, seven step/bound integers and the flat list of density values.
 */
module ReadGrd {
  import opened Results
  import opened PyText

  /** The cell lengths and angles of line 2; the angles are carried along but never used. */
  datatype Lattice = Lattice(a: real, b: real, c: real, alpha: real, beta: real, gamma: real)

  /** Line 4: the sampling step and the inclusive index bounds of the x (i), y (j) and z (k) axes. */
  datatype StepArgs = StepArgs(step: int, iFrom: int, iTo: int, jFrom: int, jTo: int, kFrom: int, kTo: int)

  /** What `read_grd` returns: category, lattice constants, step arguments and the values. */
  datatype Grid = Grid(category: string, lattice: Lattice, steps: StepArgs, values: seq<real>)

  /** The `data_info` triple both engines echo in their results. */
  datatype DataInfo = DataInfo(category: string, lattice: Lattice, steps: StepArgs)

  function Info(g: Grid): DataInfo
  {
    DataInfo(g.category, g.lattice, g.steps)
  }

  /**
   * `file.read().split('\n')`: at least one line, none holding a newline, and the lines
   * joined by newlines are the text again.
   */
  function Lines(text: string): (lines: seq<string>)
    ensures |lines| >= 1 && forall k :: 0 <= k < |lines| ==> '\n' !in lines[k]
    ensures Join(lines, '\n') == text
  {
    JoinSplit(text, '\n');
    Split(text, '\n')
  }

  // ---------------------------------------------------------------- header tokens

  /** What `while '' in d: d.remove('')` leaves of `d`: its non-empty strings, in order. */
  function NonEmpty(pieces: seq<string>): (toks: seq<string>)
    ensures |toks| <= |pieces|
    ensures forall k :: 0 <= k < |toks| ==> toks[k] != []
    decreases |pieces|
  {
    if pieces == [] then [] else (if pieces[0] == [] then [] else [pieces[0]]) + NonEmpty(pieces[1..])
  }

  lemma {:induction false} NonEmptyAppend(a: seq<string>, b: seq<string>)
    ensures NonEmpty(a + b) == NonEmpty(a) + NonEmpty(b)
    decreases |a|
  {
    if a == [] {
      assert a + b == b;
    } else {
      assert (a + b)[1..] == a[1..] + b;
      NonEmptyAppend(a[1..], b);
    }
  }

  lemma {:induction false} NonEmptyOfNoEmpty(s: seq<string>)
    requires [] !in s
    ensures NonEmpty(s) == s
    decreases |s|
  {
    if s != [] {
      assert s[0] in s;
      assert forall k :: 0 <= k < |s| - 1 ==> s[1..][k] == s[k + 1];
      NonEmptyOfNoEmpty(s[1..]);
    }
  }

  lemma {:induction false} ConcatNonEmpty(p: seq<string>)
    ensures Concat(NonEmpty(p)) == Concat(p)
    decreases |p|
  {
    if p != [] {
      ConcatNonEmpty(p[1..]);
      var head := if p[0] == [] then [] else [p[0]];
      NonEmptyAppend(head, NonEmpty(p[1..]));
      if p[0] == [] {
        assert NonEmpty(p) == NonEmpty(p[1..]);
      } else {
        assert NonEmpty(p) == [p[0]] + NonEmpty(p[1..]);
        assert ([p[0]] + NonEmpty(p[1..]))[1..] == NonEmpty(p[1..]);
      }
    }
  }

  /** Removing empty strings keeps every remaining string as it was. */
  lemma {:induction false} NonEmptyWithoutChar(p: seq<string>, c: char)
    requires forall k :: 0 <= k < |p| ==> c !in p[k]
    ensures forall k :: 0 <= k < |NonEmpty(p)| ==> c !in NonEmpty(p)[k]
    decreases |p|
  {
    if p != [] {
      NonEmptyWithoutChar(p[1..], c);
      var head := if p[0] == [] then [] else [p[0]];
      assert NonEmpty(p) == head + NonEmpty(p[1..]);
    }
  }

  /** The position `list.remove('')` deletes: the first empty string. */
  function IndexOfEmpty(s: seq<string>): (i: nat)
    requires [] in s
    ensures i < |s| && s[i] == []
    ensures forall k :: 0 <= k < i ==> s[k] != []
    decreases |s|
  {
    if s[0] == [] then 0 else 1 + IndexOfEmpty(s[1..])
  }

  /** Deleting one empty string does not change the non-empty ones. */
  lemma NonEmptyRemoveAt(s: seq<string>, i: nat)
    requires i < |s| && s[i] == []
    ensures NonEmpty(s[..i] + s[i + 1..]) == NonEmpty(s)
  {
    var a, b := s[..i], s[i + 1..];
    assert s == a + ([[]] + b);
    NonEmptyAppend(a, [[]] + b);
    NonEmptySkipsEmpty(b);
    NonEmptyAppend(a, b);
  }

  lemma NonEmptySkipsEmpty(b: seq<string>)
    ensures NonEmpty([[]] + b) == NonEmpty(b)
  {
    assert ([[]] + b)[1..] == b;
  }

  /** Read_grd's in-place loop: remove the first empty string until none is left. */
  method RemoveEmpty(pieces: seq<string>) returns (toks: seq<string>)
    ensures toks == NonEmpty(pieces)
  {
    toks := pieces;
    while [] in toks
      invariant NonEmpty(toks) == NonEmpty(pieces)
      decreases |toks|
    {
      var i := IndexOfEmpty(toks);
      NonEmptyRemoveAt(toks, i);
      toks := toks[..i] + toks[i + 1..];
    }
    NonEmptyOfNoEmpty(toks);
  }

  /**
   * The fields of a header line, `line.split(' ')` with the empty strings removed: they are
   * non-empty, contain no space, and laid end to end they are the line with every space deleted.
   */
  function HeaderTokens(line: string): (toks: seq<string>)
    ensures forall k :: 0 <= k < |toks| ==> toks[k] != [] && ' ' !in toks[k]
    ensures Concat(toks) == RemoveChar(line, ' ')
  {
    NonEmptyWithoutChar(Split(line, ' '), ' ');
    ConcatNonEmpty(Split(line, ' '));
    ConcatSplit(line, ' ');
    NonEmpty(Split(line, ' '))
  }

  /** Words separated by any number of spaces come back as the words, in order. */
  lemma HeaderTokensOfJoin(words: seq<string>)
    requires |words| >= 1
    requires forall k :: 0 <= k < |words| ==> ' ' !in words[k]
    ensures HeaderTokens(Join(words, ' ')) == NonEmpty(words)
  {
    SplitJoin(words, ' ');
  }

  /** Only the space separates fields: a line without one (tabs included) is one field. */
  lemma HeaderTokensOfWord(line: string)
    requires line != [] && ' ' !in line
    ensures HeaderTokens(line) == [line]
  {
    SplitWithoutSep(line, ' ');
  }

  // ---------------------------------------------------------------- conversions

  /** `toks[k]` is the first token `conv` rejects. */
  predicate FirstRejected<T>(toks: seq<string>, conv: string -> Option<T>, k: int)
  {
    0 <= k < |toks| && conv(toks[k]).None? && forall j :: 0 <= j < k ==> conv(toks[j]).Some?
  }

  /** After a convertible head, the first rejection of the tail is the first of the whole list. */
  lemma FirstRejectedAfterHead<T>(toks: seq<string>, conv: string -> Option<T>, tok: string)
    requires |toks| > 0 && conv(toks[0]).Some?
    requires exists k :: FirstRejected(toks[1..], conv, k) && tok == toks[1..][k]
    ensures exists k :: FirstRejected(toks, conv, k) && tok == toks[k]
  {
    var k :| FirstRejected(toks[1..], conv, k) && tok == toks[1..][k];
    assert FirstRejected(toks, conv, k + 1);
  }

  /**
   * `[float(i) for i in toks]` and `[int(i) for i in toks]` for a token conversion `conv`:
   * fails on the first token it rejects.
   */
  function ConvertAll<T>(toks: seq<string>, conv: string -> Option<T>): (r: Result<seq<T>>)
    ensures r.Ok? ==> |r.value| == |toks| && forall k :: 0 <= k < |toks| ==> conv(toks[k]) == Some(r.value[k])
    ensures r.Err? ==> r.error.BadNumber? && exists k :: FirstRejected(toks, conv, k) && r.error.token == toks[k]
    decreases |toks|
  {
    if toks == [] then Ok([])
    else
      var rest := ConvertAll(toks[1..], conv);
      assert forall k :: 1 <= k < |toks| ==> toks[k] == toks[1..][k - 1];
      match conv(toks[0])
      case None =>
        assert FirstRejected(toks, conv, 0);
        Err(BadNumber(toks[0]))
      case Some(v) =>
        if rest.Err? then
          FirstRejectedAfterHead(toks, conv, rest.error.token);
          Err(rest.error)
        else Ok([v] + rest.value)
  }

  /** Every token is convertible exactly when the conversion of the list succeeds. */
  lemma ConvertAllOk<T>(toks: seq<string>, conv: string -> Option<T>)
    ensures ConvertAll(toks, conv).Ok? <==> forall k :: 0 <= k < |toks| ==> conv(toks[k]).Some?
  {
    var r := ConvertAll(toks, conv);
    assert r.Err? ==> exists k :: 0 <= k < |toks| && toks[k] == r.error.token;
  }

  // ---------------------------------------------------------------- the loader

  /** `data[5:-1]`: every line from the sixth up to, not including, the last. */
  function ValueLines(lines: seq<string>): (v: seq<string>)
    ensures |lines| >= 6 ==> |v| == |lines| - 6
    ensures |lines| < 6 ==> v == []
    ensures forall k :: 0 <= k < |v| ==> 5 + k < |lines| - 1 && v[k] == lines[5 + k]
  {
    if |lines| >= 6 then lines[5..|lines| - 1] else []
  }

  /**
   * One factor of the length check, `(to - from) / step + 1`, with true division: the
   * (possibly fractional) number `n` of samples with `from + (n - 1) * step == to`.
   */
  function AxisFactor(from: int, to: int, step: int): (n: real)
    requires step != 0
    ensures from as real + (n - 1.0) * step as real == to as real
  {
    (to - from) as real / (step as real) + 1.0
  }

  /**
   * The value count the length check demands, the product of the three factors. When the step
   * divides every span it is the integer product of the per-axis counts `(to - from) / step + 1`.
   */
  function GrdLength(s: StepArgs): (n: real)
    requires s.step != 0
    ensures (s.iTo - s.iFrom) % s.step == 0 && (s.jTo - s.jFrom) % s.step == 0 && (s.kTo - s.kFrom) % s.step == 0 ==>
      n == (((s.iTo - s.iFrom) / s.step + 1) * ((s.jTo - s.jFrom) / s.step + 1) * ((s.kTo - s.kFrom) / s.step + 1)) as real
  {
    IntegralFactors(s);
    AxisFactor(s.iFrom, s.iTo, s.step) * AxisFactor(s.jFrom, s.jTo, s.step) * AxisFactor(s.kFrom, s.kTo, s.step)
  }

  function LatticeOf(v: seq<real>): Lattice
    requires |v| == 6
  {
    Lattice(v[0], v[1], v[2], v[3], v[4], v[5])
  }

  function StepArgsOf(v: seq<int>): StepArgs
    requires |v| == 7
  {
    StepArgs(v[0], v[1], v[2], v[3], v[4], v[5], v[6])
  }

  /** Line 2 unpacked into the six lattice constants (line 21 of the loader). */
  function ParseLattice(line: string, toFloat: string -> Option<real>): (r: Result<Lattice>)
    ensures var t := HeaderTokens(line);
      r.Ok? ==> (|t| == 6 &&
        toFloat(t[0]) == Some(r.value.a) && toFloat(t[1]) == Some(r.value.b) &&
        toFloat(t[2]) == Some(r.value.c) && toFloat(t[3]) == Some(r.value.alpha) &&
        toFloat(t[4]) == Some(r.value.beta) && toFloat(t[5]) == Some(r.value.gamma))
    ensures var t := HeaderTokens(line);
      ConvertAll(t, toFloat).Ok? && |t| != 6 ==> r == Err(FieldCount(2, 6, |t|))
    ensures r.Err? ==> r.error.BadNumber? || r.error.FieldCount?
  {
    var lat :- ConvertAll(HeaderTokens(line), toFloat);
    if |lat| != 6 then Err(FieldCount(2, 6, |lat|)) else Ok(LatticeOf(lat))
  }

  /** Line 4 unpacked into the step and the six bounds (line 22 of the loader). */
  function ParseStepArgs(line: string, toInt: string -> Option<int>): (r: Result<StepArgs>)
    ensures var t := HeaderTokens(line);
      r.Ok? ==> (|t| == 7 &&
        toInt(t[0]) == Some(r.value.step) &&
        toInt(t[1]) == Some(r.value.iFrom) && toInt(t[2]) == Some(r.value.iTo) &&
        toInt(t[3]) == Some(r.value.jFrom) && toInt(t[4]) == Some(r.value.jTo) &&
        toInt(t[5]) == Some(r.value.kFrom) && toInt(t[6]) == Some(r.value.kTo))
    ensures var t := HeaderTokens(line);
      ConvertAll(t, toInt).Ok? && |t| != 7 ==> r == Err(FieldCount(4, 7, |t|))
    ensures r.Err? ==> r.error.BadNumber? || r.error.FieldCount?
  {
    var st :- ConvertAll(HeaderTokens(line), toInt);
    if |st| != 7 then Err(FieldCount(4, 7, |st|)) else Ok(StepArgsOf(st))
  }

  /**
   * `read_grd` as a function of the file's text and of the two token conversions
   * (`float()` and `int()`), failing where the Python code raises.
   */
  function ParseGrd(text: string, toFloat: string -> Option<real>, toInt: string -> Option<int>): (r: Result<Grid>)
    ensures r.Ok? ==> r.value.category == Lines(text)[0]
    ensures r.Ok? ==> r.value.steps.step != 0 && |r.value.values| as real == GrdLength(r.value.steps)
  {
    ParseLines(Lines(text), toFloat, toInt)
  }

  /** The loader once the text is split into lines: it reads lines 0, 2, 4 and the value lines. */
  function ParseLines(lines: seq<string>, toFloat: string -> Option<real>, toInt: string -> Option<int>): (r: Result<Grid>)
    requires |lines| >= 1
    ensures r.Ok? ==> r.value.category == lines[0]
    ensures r.Ok? ==> r.value.steps.step != 0 && |r.value.values| as real == GrdLength(r.value.steps)
  {
    if |lines| < 3 then Err(MissingLine(2))
    else if |lines| < 5 then Err(MissingLine(4))
    else
      var lattice :- ParseLattice(lines[2], toFloat);
      var steps :- ParseStepArgs(lines[4], toInt);
      var values :- ConvertAll(ValueLines(lines), toFloat);
      if steps.step == 0 then Err(ZeroDivision)
      else if |values| as real != GrdLength(steps) then Err(InvalidGrdLength)
      else Ok(Grid(lines[0], lattice, steps, values))
  }

  /** `toks` converted one by one reads as exactly `vals`. */
  predicate ReadsAs<T(==)>(toks: seq<string>, conv: string -> Option<T>, vals: seq<T>)
  {
    |toks| == |vals| && forall k :: 0 <= k < |toks| ==> conv(toks[k]) == Some(vals[k])
  }

  function LatticeValues(lat: Lattice): seq<real>
  {
    [lat.a, lat.b, lat.c, lat.alpha, lat.beta, lat.gamma]
  }

  function StepValues(s: StepArgs): seq<int>
  {
    [s.step, s.iFrom, s.iTo, s.jFrom, s.jTo, s.kFrom, s.kTo]
  }

  /**
   * The loader with Python's own conversions. A loaded grid has line 0 as its category, the
   * `float()` values of line 2's six fields as lattice constants, the `int()` values of line 4's
   * seven fields as step arguments, and one `float()` value per body line; its step is nonzero
   * and its value count passed the length check.
   */
  function LoadGrd(text: string): (r: Result<Grid>)
    ensures r.Ok? ==> var lines, g := Lines(text), r.value;
      |lines| >= 5 && g.category == lines[0] &&
      ReadsAs(HeaderTokens(lines[2]), ParseReal, LatticeValues(g.lattice)) &&
      ReadsAs(HeaderTokens(lines[4]), ParseInt, StepValues(g.steps)) &&
      ReadsAs(ValueLines(lines), ParseReal, g.values) &&
      g.steps.step != 0 && |g.values| as real == GrdLength(g.steps)
  {
    var r := ParseGrd(text, ParseReal, ParseInt);
    if r.Ok? then
      ParsedFields(text, ParseReal, ParseInt);
      r
    else r
  }

  /** The fields of a parsed grid, each read from its line with the given conversions. */
  lemma ParsedFields(text: string, toFloat: string -> Option<real>, toInt: string -> Option<int>)
    requires ParseGrd(text, toFloat, toInt).Ok?
    ensures var lines, g := Lines(text), ParseGrd(text, toFloat, toInt).value;
      |lines| >= 5 && g.category == lines[0] &&
      ReadsAs(HeaderTokens(lines[2]), toFloat, LatticeValues(g.lattice)) &&
      ReadsAs(HeaderTokens(lines[4]), toInt, StepValues(g.steps)) &&
      ReadsAs(ValueLines(lines), toFloat, g.values) &&
      g.steps.step != 0 && |g.values| as real == GrdLength(g.steps)
  {
    var lines := Lines(text);
    FieldsInFileOrder(text, toFloat, toInt);
    LatticeReads(lines[2], toFloat);
    StepArgsRead(lines[4], toInt);
  }

  lemma LatticeReads(line: string, toFloat: string -> Option<real>)
    requires ParseLattice(line, toFloat).Ok?
    ensures ReadsAs(HeaderTokens(line), toFloat, LatticeValues(ParseLattice(line, toFloat).value))
  {
  }

  lemma StepArgsRead(line: string, toInt: string -> Option<int>)
    requires ParseStepArgs(line, toInt).Ok?
    ensures ReadsAs(HeaderTokens(line), toInt, StepValues(ParseStepArgs(line, toInt).value))
  {
  }

  /** `read_grd` on the file's text, with the token clean-up loops of the source. */
  method ReadGrd(text: string) returns (r: Result<Grid>)
    ensures r == LoadGrd(text)
  {
    var data := Lines(text);
    var category := data[0];
    if |data| < 3 {
      return Err(MissingLine(2));
    }
    var data2 := RemoveEmpty(Split(data[2], ' '));
    if |data| < 5 {
      return Err(MissingLine(4));
    }
    var data4 := RemoveEmpty(Split(data[4], ' '));
    var lat := ConvertAll(data2, ParseReal);
    if lat.Err? {
      return Err(lat.error);
    }
    if |lat.value| != 6 {
      return Err(FieldCount(2, 6, |lat.value|));
    }
    var st := ConvertAll(data4, ParseInt);
    if st.Err? {
      return Err(st.error);
    }
    if |st.value| != 7 {
      return Err(FieldCount(4, 7, |st.value|));
    }
    var grdData := ConvertAll(ValueLines(data), ParseReal);
    if grdData.Err? {
      return Err(grdData.error);
    }
    var steps := StepArgsOf(st.value);
    if steps.step == 0 {
      return Err(ZeroDivision);
    }
    if |grdData.value| as real != GrdLength(steps) {
      return Err(InvalidGrdLength);
    }
    r := Ok(Grid(category, LatticeOf(lat.value), steps, grdData.value));
  }

  // ---------------------------------------------------------------- properties of the loader
  // They hold for any token conversions, so in particular for `LoadGrd`.

  /** The category is the first line of the text exactly as given: nothing is trimmed. */
  lemma CategoryIsFirstLine(cat: string, rest: string, toFloat: string -> Option<real>, toInt: string -> Option<int>)
    requires '\n' !in cat
    ensures Lines(cat + "\n" + rest)[0] == cat
    ensures var r := ParseGrd(cat + "\n" + rest, toFloat, toInt); r.Ok? ==> r.value.category == cat
  {
    SplitAfterPrefix(cat, rest, '\n');
  }

  /** A file without lines 2 and 4 fails on the first of them that is missing. */
  lemma MissingHeaderLines(text: string, toFloat: string -> Option<real>, toInt: string -> Option<int>)
    ensures |Lines(text)| < 3 ==> ParseGrd(text, toFloat, toInt) == Err(MissingLine(2))
    ensures 3 <= |Lines(text)| < 5 ==> ParseGrd(text, toFloat, toInt) == Err(MissingLine(4))
    ensures '\n' !in text ==> ParseGrd(text, toFloat, toInt) == Err(MissingLine(2))
  {
    if '\n' !in text {
      SplitWithoutSep(text, '\n');
    }
  }

  /**
   * On success the grid is put together from its parts in file order: the category is line 0,
   * the lattice line 2 converted, the step arguments line 4 converted and the values the body lines.
   */
  lemma FieldsInFileOrder(text: string, toFloat: string -> Option<real>, toInt: string -> Option<int>)
    requires ParseGrd(text, toFloat, toInt).Ok?
    ensures var lines := Lines(text);
      |lines| >= 5 && ParseLattice(lines[2], toFloat).Ok? && ParseStepArgs(lines[4], toInt).Ok? &&
      ConvertAll(ValueLines(lines), toFloat).Ok? &&
      ParseGrd(text, toFloat, toInt).value ==
        Grid(lines[0], ParseLattice(lines[2], toFloat).value, ParseStepArgs(lines[4], toInt).value,
             ConvertAll(ValueLines(lines), toFloat).value)
  {
  }

  /** A header line whose fields all convert fails exactly when it has the wrong number of them. */
  lemma FieldCountErrors(text: string, toFloat: string -> Option<real>, toInt: string -> Option<int>)
    requires |Lines(text)| >= 5
    ensures var t2 := HeaderTokens(Lines(text)[2]);
      ConvertAll(t2, toFloat).Ok? && |t2| != 6 ==> ParseGrd(text, toFloat, toInt) == Err(FieldCount(2, 6, |t2|))
    ensures var t4 := HeaderTokens(Lines(text)[4]);
      ParseLattice(Lines(text)[2], toFloat).Ok? && ConvertAll(t4, toInt).Ok? && |t4| != 7 ==>
        ParseGrd(text, toFloat, toInt) == Err(FieldCount(4, 7, |t4|))
  {
  }

  /**
   * On success the values are lines 5 up to the second-to-last, in file order, one per line:
   * there are `|lines| - 6` of them (none when the file has only five lines).
   */
  lemma ValuesAreBodyLines(text: string, toFloat: string -> Option<real>, toInt: string -> Option<int>)
    requires ParseGrd(text, toFloat, toInt).Ok?
    ensures var lines, v := Lines(text), ParseGrd(text, toFloat, toInt).value.values;
      |lines| >= 5 &&
      (|lines| >= 6 ==> |v| == |lines| - 6) && (|lines| == 5 ==> v == []) &&
      forall k :: 0 <= k < |v| ==> 5 + k < |lines| - 1 && toFloat(lines[5 + k]) == Some(v[k])
  {
    var lines := Lines(text);
    FieldsInFileOrder(text, toFloat, toInt);
    assert forall k :: 0 <= k < |ValueLines(lines)| ==> ValueLines(lines)[k] == lines[5 + k];
  }

  /**
   * Once the header and the values convert, the step and the length check decide: a zero step
   * fails with a division by zero, and otherwise loading succeeds exactly when the value count
   * equals the product of `(to - from) / step + 1` over the three axes.
   */
  lemma LengthCheck(text: string, toFloat: string -> Option<real>, toInt: string -> Option<int>)
    requires |Lines(text)| >= 5
    requires ParseLattice(Lines(text)[2], toFloat).Ok? && ParseStepArgs(Lines(text)[4], toInt).Ok?
    requires ConvertAll(ValueLines(Lines(text)), toFloat).Ok?
    ensures var s := ParseStepArgs(Lines(text)[4], toInt).value;
      var n := |ConvertAll(ValueLines(Lines(text)), toFloat).value|;
      var r := ParseGrd(text, toFloat, toInt);
      (s.step == 0 ==> r == Err(ZeroDivision)) &&
      (s.step != 0 ==> (r.Ok? <==> n as real == GrdLength(s))) &&
      (s.step != 0 && n as real != GrdLength(s) ==> r == Err(InvalidGrdLength))
  {
  }

  /**
   * Lines 1 and 3 never influence the result, and neither does the final line unless it is
   * one of lines 0, 2 and 4 (a file of at most five lines).
   */
  lemma OtherLinesIgnored(text: string, text': string, toFloat: string -> Option<real>, toInt: string -> Option<int>)
    requires |Lines(text)| == |Lines(text')|
    requires forall j :: 0 <= j < |Lines(text)| && j != 1 && j != 3 && (j < 5 || j != |Lines(text)| - 1) ==>
      Lines(text)[j] == Lines(text')[j]
    ensures ParseGrd(text, toFloat, toInt) == ParseGrd(text', toFloat, toInt)
  {
    var lines, lines' := Lines(text), Lines(text');
    if |lines| >= 5 {
      assert lines[0] == lines'[0];
      assert lines[2] == lines'[2] && lines[4] == lines'[4];
      SameValueLines(lines, lines');
      SameFieldLines(lines, lines', toFloat, toInt);
    }
  }

  /** Two lists of at least five lines that agree on lines 0, 2, 4 and the value lines load alike. */
  lemma SameFieldLines(lines: seq<string>, lines': seq<string>, toFloat: string -> Option<real>, toInt: string -> Option<int>)
    requires |lines| == |lines'| >= 5
    requires lines[0] == lines'[0] && lines[2] == lines'[2] && lines[4] == lines'[4]
    requires ValueLines(lines) == ValueLines(lines')
    ensures ParseLines(lines, toFloat, toInt) == ParseLines(lines', toFloat, toInt)
  {
  }

  lemma SameValueLines(lines: seq<string>, lines': seq<string>)
    requires |lines| == |lines'|
    requires forall j :: 5 <= j < |lines| - 1 ==> lines[j] == lines'[j]
    ensures ValueLines(lines) == ValueLines(lines')
  {
    if |lines| >= 6 {
      assert lines[5..|lines| - 1] == lines'[5..|lines| - 1];
    }
  }

  /** With divisible spans the product of the three factors is an integer product. */
  lemma IntegralFactors(s: StepArgs)
    requires s.step != 0
    ensures (s.iTo - s.iFrom) % s.step == 0 && (s.jTo - s.jFrom) % s.step == 0 && (s.kTo - s.kFrom) % s.step == 0 ==>
      AxisFactor(s.iFrom, s.iTo, s.step) * AxisFactor(s.jFrom, s.jTo, s.step) * AxisFactor(s.kFrom, s.kTo, s.step) ==
      (((s.iTo - s.iFrom) / s.step + 1) * ((s.jTo - s.jFrom) / s.step + 1) * ((s.kTo - s.kFrom) / s.step + 1)) as real
  {
    if (s.iTo - s.iFrom) % s.step == 0 && (s.jTo - s.jFrom) % s.step == 0 && (s.kTo - s.kFrom) % s.step == 0 {
      Integral(s);
    }
  }

  lemma Integral(s: StepArgs)
    requires s.step != 0
    requires (s.iTo - s.iFrom) % s.step == 0 && (s.jTo - s.jFrom) % s.step == 0 && (s.kTo - s.kFrom) % s.step == 0
    ensures AxisFactor(s.iFrom, s.iTo, s.step) * AxisFactor(s.jFrom, s.jTo, s.step) * AxisFactor(s.kFrom, s.kTo, s.step) ==
      (((s.iTo - s.iFrom) / s.step + 1) * ((s.jTo - s.jFrom) / s.step + 1) * ((s.kTo - s.kFrom) / s.step + 1)) as real
  {
    ExactFactor(s.iFrom, s.iTo, s.step);
    ExactFactor(s.jFrom, s.jTo, s.step);
    ExactFactor(s.kFrom, s.kTo, s.step);
    var x, y, z := (s.iTo - s.iFrom) / s.step + 1, (s.jTo - s.jFrom) / s.step + 1, (s.kTo - s.kFrom) / s.step + 1;
    assert (x * y * z) as real == (x as real) * (y as real) * (z as real);
  }

  lemma ExactFactor(from: int, to: int, step: int)
    requires step != 0 && (to - from) % step == 0
    ensures AxisFactor(from, to, step) == ((to - from) / step + 1) as real
  {
    var q := (to - from) / step;
    assert to - from == q * step;
    assert (to - from) as real == (q as real) * (step as real);
  }
}

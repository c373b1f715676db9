/** Splitting a command string into arguments. */
module Shell {
  import opened Text

  datatype Quote = Bare | Quoted(mark: char)

  /** The tokens finished so far and the one being read. */
  datatype Scan = Scan(tokens: seq<string>, cur: string, hasToken: bool, quote: Quote, escaped: bool)

  const START := Scan([], "", false, Bare, false)

  predicate IsSpace(c: char) { c == ' ' || c == '\t' || c == '\n' || c == '\r' }

  function ReadChar(st: Scan, c: char): Scan
  {
    if st.escaped then st.(cur := st.cur + [c], escaped := false, hasToken := true)
    else if c == '\\' && st.quote != Quoted('\'') then st.(escaped := true, hasToken := true)
    else if st.quote.Quoted? then (if c == st.quote.mark then st.(quote := Bare) else st.(cur := st.cur + [c]))
    else if c == '\'' || c == '"' then st.(quote := Quoted(c), hasToken := true)
    else if IsSpace(c) then
      if st.hasToken then st.(tokens := st.tokens + [st.cur], cur := "", hasToken := false) else st
    else st.(cur := st.cur + [c], hasToken := true)
  }

  function Read(st: Scan, s: string): Scan
    decreases s
  {
    if s == "" then st else Read(ReadChar(st, s[0]), s[1..])
  }

  function Tokens(st: Scan): seq<string> { if st.hasToken then st.tokens + [st.cur] else st.tokens }

  function Split(s: string): seq<string> { Tokens(Read(START, s)) }

  method ShellSplit(s: string) returns (tokens: seq<string>)
    ensures tokens == Split(s)
  {
    tokens := [];
    var cur, hasToken, quote, escaped := "", false, Bare, false;
    for i := 0 to |s|
      invariant Read(Scan(tokens, cur, hasToken, quote, escaped), s[i..]) == Read(START, s)
    {
      var r := s[i];
      assert s[i..][0] == r && s[i..][1..] == s[i + 1..];
      if escaped {
        cur, escaped, hasToken := cur + [r], false, true;
      } else if r == '\\' && quote != Quoted('\'') {
        escaped, hasToken := true, true;
      } else if quote != Bare {
        if r == quote.mark {
          quote := Bare;
        } else {
          cur := cur + [r];
        }
      } else if r == '\'' || r == '"' {
        quote, hasToken := Quoted(r), true;
      } else if IsSpace(r) {
        if hasToken {
          tokens, cur, hasToken := tokens + [cur], "", false;
        }
      } else {
        cur, hasToken := cur + [r], true;
      }
    }
    if hasToken {
      tokens := tokens + [cur];
    }
  }

  lemma {:induction false} ReadConcat(st: Scan, a: string, b: string)
    ensures Read(st, a + b) == Read(Read(st, a), b)
    decreases a
  {
    if a == "" {
      assert a + b == b;
    } else {
      assert (a + b)[0] == a[0] && (a + b)[1..] == a[1..] + b;
      ReadConcat(ReadChar(st, a[0]), a[1..], b);
    }
  }

  // ---------- Two commands one after the other ----------

  /** The scan ended outside quotes, with nothing left to escape. */
  predicate Settled(s: string) { var end := Read(START, s); end.quote == Bare && !end.escaped }

  /** Tokens already finished do not matter to what follows. */
  lemma {:induction false} FinishedTokensStay(done: seq<string>, st: Scan, s: string)
    ensures Read(st.(tokens := done + st.tokens), s) == Read(st, s).(tokens := done + Read(st, s).tokens)
    decreases s
  {
    if s != "" {
      var next := ReadChar(st, s[0]);
      assert done + (st.tokens + [st.cur]) == done + st.tokens + [st.cur];
      assert ReadChar(st.(tokens := done + st.tokens), s[0]) == next.(tokens := done + next.tokens);
      FinishedTokensStay(done, next, s[1..]);
    }
  }

  /** Inside quotes or after a backslash a token is being read; without one nothing has been
      collected; and only the two quotes quote. */
  predicate Sane(st: Scan)
  {
    (st.hasToken || (st.cur == "" && st.quote == Bare && !st.escaped)) && (st.quote.Quoted? ==> st.quote.mark in "'\"")
  }

  lemma {:induction false} StaysSane(st: Scan, s: string)
    requires Sane(st)
    ensures Sane(Read(st, s))
    decreases s
  {
    if s != "" {
      StaysSane(ReadChar(st, s[0]), s[1..]);
    }
  }

  /** The token being read only grows. */
  lemma {:induction false} TokenGrows(st: Scan, s: string)
    requires st.hasToken
    ensures var all := Tokens(Read(st, s));
      |all| > |st.tokens| && all[..|st.tokens|] == st.tokens && st.cur <= all[|st.tokens|]
    decreases s
  {
    if s != "" {
      var next := ReadChar(st, s[0]);
      if next.hasToken {
        TokenGrows(next, s[1..]);
      } else {
        FinishedTokensStay(next.tokens, next.(tokens := []), s[1..]);
        assert next.(tokens := next.tokens + []) == next;
        assert st.cur == next.tokens[|st.tokens|];
      }
    }
  }

  /** Splitting two commands joined by a space gives the tokens of the one and then of the
      other, exactly when the first ends outside quotes and unescaped. */
  lemma SplitOfJoined(s: string, t: string)
    ensures Split(s + " " + t) == Split(s) + Split(t) <==> Settled(s)
  {
    var end := Read(START, s);
    ReadConcat(START, s, " " + t);
    assert s + " " + t == s + (" " + t);
    assert (" " + t)[0] == ' ' && (" " + t)[1..] == t;
    var next := ReadChar(end, ' ');
    assert Split(s + " " + t) == Tokens(Read(next, t));
    StaysSane(START, s);
    if Settled(s) {
      assert next == START.(tokens := Split(s) + START.tokens);
      FinishedTokensStay(Split(s), START, t);
    } else {
      assert next.cur == end.cur + " " && next.tokens == end.tokens && next.hasToken;
      TokenGrows(next, t);
      assert |(Split(s) + Split(t))[|end.tokens|]| < |next.cur|;
    }
  }

  // ---------- Quoting ----------

  /** An inner single quote is written '\'' . */
  function Inner(token: string): string
  {
    if token == "" then "" else (if token[0] == '\'' then "'\\''" else [token[0]]) + Inner(token[1..])
  }

  function SingleQuoted(token: string): string { "'" + Inner(token) + "'" }

  function Join(tokens: seq<string>): string
  {
    if tokens == [] then "" else if |tokens| == 1 then SingleQuoted(tokens[0])
    else SingleQuoted(tokens[0]) + " " + Join(tokens[1..])
  }

  lemma {:induction false} InnerReads(st: Scan, token: string)
    requires st.quote == Quoted('\'') && !st.escaped && st.hasToken
    ensures Read(st, Inner(token)) == st.(cur := st.cur + token)
    decreases token
  {
    if token == "" {
      assert st.cur + token == st.cur;
    } else {
      var piece := if token[0] == '\'' then "'\\''" else [token[0]];
      ReadConcat(st, piece, Inner(token[1..]));
      var next := st.(cur := st.cur + [token[0]]);
      assert Read(st, piece) == next by { PieceReads(st, token[0]); }
      InnerReads(next, token[1..]);
      assert st.cur + [token[0]] + token[1..] == st.cur + token;
    }
  }

  lemma PieceReads(st: Scan, c: char)
    requires st.quote == Quoted('\'') && !st.escaped && st.hasToken
    ensures Read(st, if c == '\'' then "'\\''" else [c]) == st.(cur := st.cur + [c])
  {
    if c == '\'' {
      var s := "'\\''";
      assert s[1..] == "\\''" && s[1..][1..] == "''" && s[1..][1..][1..] == "'" && s[1..][1..][1..][1..] == "";
      var a := ReadChar(st, s[0]);
      assert a == st.(quote := Bare);
      var b := ReadChar(a, '\\');
      var c := ReadChar(b, '\'');
      assert ReadChar(c, '\'') == st.(cur := st.cur + "'");
      assert Read(c, "'") == Read(ReadChar(c, '\''), "");
      assert Read(b, "''") == Read(c, "'");
      assert Read(a, "\\''") == Read(b, "''");
    } else {
      assert [c][1..] == "";
    }
  }

  lemma QuotedReads(st: Scan, token: string)
    requires st.quote == Bare && !st.escaped && !st.hasToken && st.cur == ""
    ensures Read(st, SingleQuoted(token)) == st.(cur := token, hasToken := true)
  {
    var open := st.(quote := Quoted('\''), hasToken := true);
    ReadConcat(st, "'", Inner(token) + "'");
    assert SingleQuoted(token) == "'" + (Inner(token) + "'");
    assert "'"[1..] == "";
    assert Read(st, "'") == open;
    ReadConcat(open, Inner(token), "'");
    InnerReads(open, token);
    assert Read(open.(cur := token), "'") == Read(ReadChar(open.(cur := token), '\''), "");
    assert "" + token == token;
  }

  /** Quoting any tokens and joining them with spaces splits back to those tokens. */
  lemma {:induction false} SplitUndoesQuoting(tokens: seq<string>)
    ensures Split(Join(tokens)) == tokens
  {
    if tokens == [] {
    } else {
      QuotedReads(START, tokens[0]);
      if |tokens| == 1 {
        assert tokens == [tokens[0]];
      } else {
        SplitUndoesQuoting(tokens[1..]);
        SplitOfJoined(SingleQuoted(tokens[0]), Join(tokens[1..]));
        assert tokens == [tokens[0]] + tokens[1..];
      }
    }
  }

  // ---------- The words of a command, piece by piece ----------

  /** Between double quotes: a character that stands for itself, or one behind a backslash. */
  datatype Inside = Raw(c: char) | Slashed(c: char)

  /** A word is written as pieces next to each other. */
  datatype Piece = Plain(c: char) | Escaped(c: char) | Single(text: string) | Double(inside: seq<Inside>)

  predicate IsRaw(i: Inside) { i.Raw? ==> i.c !in "\"\\" }

  predicate IsPiece(p: Piece)
  {
    match p
    case Plain(c) => c !in " \t\n\r'\"\\"
    case Escaped(_) => true
    case Single(text) => '\'' !in text
    case Double(inside) => forall i | i in inside :: IsRaw(i)
  }

  function InsideText(inside: seq<Inside>): string
  {
    if inside == [] then ""
    else (match inside[0] case Raw(c) => [c] case Slashed(c) => ['\\', c]) + InsideText(inside[1..])
  }

  function InsideValue(inside: seq<Inside>): string
  {
    if inside == [] then "" else [inside[0].c] + InsideValue(inside[1..])
  }

  function PieceText(p: Piece): string
  {
    match p
    case Plain(c) => [c]
    case Escaped(c) => ['\\', c]
    case Single(text) => "'" + text + "'"
    case Double(inside) => "\"" + InsideText(inside) + "\""
  }

  function PieceValue(p: Piece): string
  {
    match p
    case Plain(c) => [c]
    case Escaped(c) => [c]
    case Single(text) => text
    case Double(inside) => InsideValue(inside)
  }

  function WordText(w: seq<Piece>): string { if w == [] then "" else PieceText(w[0]) + WordText(w[1..]) }

  function WordValue(w: seq<Piece>): string { if w == [] then "" else PieceValue(w[0]) + WordValue(w[1..]) }

  ghost predicate IsWord(w: seq<Piece>) { w != [] && forall p | p in w :: IsPiece(p) }

  predicate IsGap(g: string) { forall c | c in g :: c in " \t\n\r" }

  /** A word, and the gap behind it. */
  datatype Spaced = Spaced(word: seq<Piece>, gap: string)

  function CommandText(words: seq<Spaced>): string
  {
    if words == [] then "" else WordText(words[0].word) + words[0].gap + CommandText(words[1..])
  }

  function CommandValue(words: seq<Spaced>): seq<string>
  {
    if words == [] then [] else [WordValue(words[0].word)] + CommandValue(words[1..])
  }

  /** Words, each but the last with a gap behind it that is not empty. */
  ghost predicate IsCommand(words: seq<Spaced>)
  {
    forall i | 0 <= i < |words| :: IsWord(words[i].word) && IsGap(words[i].gap) && (i + 1 < |words| ==> words[i].gap != "")
  }

  lemma ReadOne(st: Scan, c: char)
    ensures Read(st, [c]) == ReadChar(st, c)
  {
    assert [c][1..] == "";
  }

  lemma ReadTwo(st: Scan, c: char, d: char)
    ensures Read(st, [c, d]) == ReadChar(ReadChar(st, c), d)
  {
    assert [c, d][1..] == [d];
    ReadOne(ReadChar(st, c), d);
  }

  lemma {:induction false} SingleReads(st: Scan, text: string)
    requires st.quote == Quoted('\'') && !st.escaped && '\'' !in text
    ensures Read(st, text) == st.(cur := st.cur + text)
    decreases text
  {
    if text == "" {
      assert st.cur + text == st.cur;
    } else {
      SingleReads(st.(cur := st.cur + [text[0]]), text[1..]);
      assert st.cur + [text[0]] + text[1..] == st.cur + text;
    }
  }

  lemma {:induction false} InsideReads(st: Scan, inside: seq<Inside>)
    requires st.quote == Quoted('"') && !st.escaped && st.hasToken && forall i | i in inside :: IsRaw(i)
    ensures Read(st, InsideText(inside)) == st.(cur := st.cur + InsideValue(inside))
    decreases inside
  {
    if inside == [] {
      assert st.cur + "" == st.cur;
    } else {
      var i, next := inside[0], st.(cur := st.cur + [inside[0].c]);
      var head := match i case Raw(c) => [c] case Slashed(c) => ['\\', c];
      assert i in inside;
      ReadOne(st, i.c);
      ReadTwo(st, '\\', i.c);
      assert Read(st, head) == next;
      ReadConcat(st, head, InsideText(inside[1..]));
      InsideReads(next, inside[1..]);
      assert st.cur + [i.c] + InsideValue(inside[1..]) == st.cur + InsideValue(inside);
    }
  }

  lemma PieceIsRead(st: Scan, p: Piece)
    requires st.quote == Bare && !st.escaped && IsPiece(p)
    ensures Read(st, PieceText(p)) == st.(cur := st.cur + PieceValue(p), hasToken := true)
  {
    match p
    case Plain(c) => ReadOne(st, c);
    case Escaped(c) => ReadTwo(st, '\\', c);
    case Single(text) =>
      var open := st.(quote := Quoted('\''), hasToken := true);
      ReadOne(st, '\'');
      ReadConcat(st, "'", text + "'");
      assert PieceText(p) == "'" + (text + "'");
      ReadConcat(open, text, "'");
      SingleReads(open, text);
      ReadOne(open.(cur := st.cur + text), '\'');
    case Double(inside) =>
      var open := st.(quote := Quoted('"'), hasToken := true);
      ReadOne(st, '"');
      ReadConcat(st, "\"", InsideText(inside) + "\"");
      assert PieceText(p) == "\"" + (InsideText(inside) + "\"");
      ReadConcat(open, InsideText(inside), "\"");
      InsideReads(open, inside);
      ReadOne(open.(cur := st.cur + InsideValue(inside)), '"');
  }

  lemma WordStarts(w: seq<Piece>)
    ensures WordText([]) == "" && WordValue([]) == ""
    ensures w != [] ==> WordText(w) == PieceText(w[0]) + WordText(w[1..]) && WordValue(w) == PieceValue(w[0]) + WordValue(w[1..])
  {
    hide PieceText, PieceValue;
  }

  lemma {:induction false} PiecesAreRead(st: Scan, w: seq<Piece>)
    requires st.quote == Bare && !st.escaped && forall p | p in w :: IsPiece(p)
    ensures Read(st, WordText(w)) == st.(cur := st.cur + WordValue(w), hasToken := st.hasToken || w != [])
    decreases w
  {
    hide Read, WordText, WordValue, PieceText, PieceValue, IsPiece;
    WordStarts(w);
    if w == [] {
      NothingIsRead(st);
      assert st.cur + "" == st.cur;
    } else {
      var p, rest := w[0], w[1..];
      assert p in w && forall q | q in rest :: q in w;
      PieceIsRead(st, p);
      ReadConcat(st, PieceText(p), WordText(rest));
      PiecesAreRead(st.(cur := st.cur + PieceValue(p), hasToken := true), rest);
      assert st.cur + PieceValue(p) + WordValue(rest) == st.cur + (PieceValue(p) + WordValue(rest));
    }
  }

  lemma {:induction false} GapIsRead(st: Scan, g: string)
    requires st.quote == Bare && !st.escaped && IsGap(g) && (!st.hasToken ==> st.cur == "")
    ensures Read(st, g) == if g == "" then st else Scan(Tokens(st), "", false, Bare, false)
    decreases g
  {
    if g != "" {
      assert g[0] in g && forall c | c in g[1..] :: c in g;
      GapIsRead(ReadChar(st, g[0]), g[1..]);
    }
  }

  lemma SpacedIsRead(done: seq<string>, w: Spaced)
    requires IsWord(w.word) && IsGap(w.gap)
    ensures Read(Scan(done, "", false, Bare, false), WordText(w.word) + w.gap) ==
      if w.gap == "" then Scan(done, WordValue(w.word), true, Bare, false)
      else Scan(done + [WordValue(w.word)], "", false, Bare, false)
  {
    var st, held := Scan(done, "", false, Bare, false), Scan(done, WordValue(w.word), true, Bare, false);
    PiecesAreRead(st, w.word);
    assert "" + WordValue(w.word) == WordValue(w.word);
    GapIsRead(held, w.gap);
    ReadConcat(st, WordText(w.word), w.gap);
    hide Read, WordText, WordValue, IsPiece;
  }

  lemma CommandStarts(words: seq<Spaced>)
    requires words != []
    ensures CommandText(words) == WordText(words[0].word) + words[0].gap + CommandText(words[1..])
    ensures CommandValue(words) == [WordValue(words[0].word)] + CommandValue(words[1..])
  {
    hide WordText, WordValue;
  }

  lemma RestIsCommand(words: seq<Spaced>)
    requires IsCommand(words) && words != []
    ensures IsWord(words[0].word) && IsGap(words[0].gap) && IsCommand(words[1..])
    ensures words[1..] != [] ==> words[0].gap != ""
  {
    hide IsWord, IsGap;
    forall i | 0 <= i < |words[1..]|
      ensures IsWord(words[1..][i].word) && IsGap(words[1..][i].gap) && (i + 1 < |words[1..]| ==> words[1..][i].gap != "")
    {
      assert words[1..][i] == words[i + 1];
    }
  }

  lemma OneAfterAnother(done: seq<string>, v: string, more: seq<string>)
    ensures done + ([v] + more) == done + [v] + more
    ensures done + [v] + [] == done + [v] && done + [] == done
  {}

  lemma {:induction false} CommandIsRead(done: seq<string>, words: seq<Spaced>)
    requires IsCommand(words)
    ensures var end := Read(Scan(done, "", false, Bare, false), CommandText(words));
      Tokens(end) == done + CommandValue(words) && end.quote == Bare && !end.escaped
    decreases words
  {
    hide Read, CommandText, CommandValue, IsCommand, IsWord, IsGap, WordText, WordValue;
    var st := Scan(done, "", false, Bare, false);
    NoCommand();
    if words == [] {
      NothingIsRead(st);
      OneAfterAnother(done, "", []);
    } else {
      var w, v, rest := words[0], WordValue(words[0].word), words[1..];
      CommandStarts(words);
      RestIsCommand(words);
      SpacedIsRead(done, w);
      ReadConcat(st, WordText(w.word) + w.gap, CommandText(rest));
      OneAfterAnother(done, v, CommandValue(rest));
      if rest == [] {
        NothingIsRead(Read(st, WordText(w.word) + w.gap));
        OneAfterAnother(done, v, []);
      } else {
        CommandIsRead(done + [v], rest);
      }
    }
  }

  lemma NoCommand()
    ensures CommandText([]) == "" && CommandValue([]) == []
  {}

  lemma NothingIsRead(st: Scan)
    ensures Read(st, "") == st
  {}

  /** Whatever words a command is written of, however each is quoted or escaped, and whatever white
      space separates them, it splits into their values, and ends outside quotes. */
  lemma CommandsSplit(lead: string, words: seq<Spaced>)
    requires IsGap(lead) && IsCommand(words)
    ensures Split(lead + CommandText(words)) == CommandValue(words) && Settled(lead + CommandText(words))
  {
    ReadConcat(START, lead, CommandText(words));
    GapIsRead(START, lead);
    CommandIsRead([], words);
    assert [] + CommandValue(words) == CommandValue(words);
  }

  // ---------- What settled text is ----------

  /** A piece of a word, or a space between words. */
  predicate IsItem(p: Piece) { IsPiece(p) || (p.Plain? && p.c in " \t\n\r") }

  ghost predicate AreItems(items: seq<Piece>) { forall p | p in items :: IsItem(p) }

  lemma {:induction false} ItemsSettle(st: Scan, items: seq<Piece>)
    requires st.quote == Bare && !st.escaped && AreItems(items)
    ensures Read(st, WordText(items)).quote == Bare && !Read(st, WordText(items)).escaped
    decreases items
  {
    if items != [] {
      var p := items[0];
      assert p in items;
      ReadConcat(st, PieceText(p), WordText(items[1..]));
      if IsPiece(p) { PieceIsRead(st, p); } else { ReadOne(st, p.c); }
      ItemsSettle(Read(st, PieceText(p)), items[1..]);
    }
  }

  lemma {:induction false} WordTextAppends(w: seq<Piece>, p: Piece)
    ensures WordText(w + [p]) == WordText(w) + PieceText(p)
  {
    if w == [] {
      assert WordText([p]) == PieceText(p) + WordText([p][1..]);
    } else {
      assert (w + [p])[0] == w[0] && (w + [p])[1..] == w[1..] + [p];
      WordTextAppends(w[1..], p);
    }
  }

  lemma {:induction false} InsideTextAppends(inside: seq<Inside>, i: Inside)
    ensures InsideText(inside + [i]) == InsideText(inside) + match i case Raw(c) => [c] case Slashed(c) => ['\\', c]
  {
    if inside == [] {
      assert [i][1..] == [];
    } else {
      assert (inside + [i])[0] == inside[0] && (inside + [i])[1..] == inside[1..] + [i];
      InsideTextAppends(inside[1..], i);
    }
  }

  /** What has been read of a piece that is not closed yet. */
  ghost predicate IsTail(end: Scan, text: string, inside: seq<Inside>, tail: string)
  {
    var slash := if end.escaped then "\\" else "";
    match end.quote
    case Bare => tail == slash
    case Quoted(mark) =>
      if mark == '\'' then !end.escaped && '\'' !in text && tail == "'" + text
      else mark == '"' && (forall i | i in inside :: IsRaw(i)) && tail == "\"" + InsideText(inside) + slash
  }

  /** Any text is items, and then what has been read of one more. */
  lemma {:induction false} TextIsItems(s: string)
    returns (items: seq<Piece>, text: string, inside: seq<Inside>, tail: string)
    ensures AreItems(items) && IsTail(Read(START, s), text, inside, tail) && s == WordText(items) + tail
    decreases |s|
  {
    if s == "" {
      items, text, inside, tail := [], "", [], "";
    } else {
      var front, c := s[..|s| - 1], s[|s| - 1];
      assert s == front + [c];
      ReadConcat(START, front, [c]);
      ReadOne(Read(START, front), c);
      StaysSane(START, front);
      items, text, inside, tail := TextIsItems(front);
      var st := Read(START, front);
      if st.quote == Bare {
        items, text, inside, tail := OneMoreBare(st, c, items, text, inside, tail);
      } else if st.quote.mark == '\'' {
        items, text, inside, tail := OneMoreSingle(st, c, items, text, inside, tail);
      } else {
        items, text, inside, tail := OneMoreDouble(st, c, items, text, inside, tail);
      }
    }
  }

  /** One more character outside quotes is an item, or starts one. */
  lemma OneMoreBare(st: Scan, c: char, items: seq<Piece>, text: string, inside: seq<Inside>, tail: string)
    returns (items': seq<Piece>, text': string, inside': seq<Inside>, tail': string)
    requires AreItems(items) && IsTail(st, text, inside, tail) && st.quote == Bare
    ensures AreItems(items') && IsTail(ReadChar(st, c), text', inside', tail')
    ensures WordText(items') + tail' == WordText(items) + tail + [c]
  {
    items', text', inside', tail' := items, "", [], tail + [c];
    if st.escaped || (c != '\'' && c != '"' && c != '\\') {
      var p := if st.escaped then Escaped(c) else Plain(c);
      items', tail' := items + [p], "";
      WordTextAppends(items, p);
      hide WordText;
    }
  }

  /** Inside single quotes it goes on, or closes them. */
  lemma OneMoreSingle(st: Scan, c: char, items: seq<Piece>, text: string, inside: seq<Inside>, tail: string)
    returns (items': seq<Piece>, text': string, inside': seq<Inside>, tail': string)
    requires AreItems(items) && IsTail(st, text, inside, tail) && st.quote == Quoted('\'')
    ensures AreItems(items') && IsTail(ReadChar(st, c), text', inside', tail')
    ensures WordText(items') + tail' == WordText(items) + tail + [c]
  {
    items', text', inside', tail' := items, text + [c], inside, tail + [c];
    if c == '\'' {
      items', tail' := items + [Single(text)], "";
      WordTextAppends(items, Single(text));
      hide WordText;
    }
  }

  /** Inside double quotes it goes on, or closes them. */
  lemma OneMoreDouble(st: Scan, c: char, items: seq<Piece>, text: string, inside: seq<Inside>, tail: string)
    returns (items': seq<Piece>, text': string, inside': seq<Inside>, tail': string)
    requires AreItems(items) && IsTail(st, text, inside, tail) && st.quote == Quoted('"')
    ensures AreItems(items') && IsTail(ReadChar(st, c), text', inside', tail')
    ensures WordText(items') + tail' == WordText(items) + tail + [c]
  {
    items', text', inside', tail' := items, text, inside, tail + [c];
    if !st.escaped && c == '"' {
      items', tail' := items + [Double(inside)], "";
      WordTextAppends(items, Double(inside));
    } else if st.escaped || c != '\\' {
      var i := if st.escaped then Slashed(c) else Raw(c);
      inside' := inside + [i];
      InsideTextAppends(inside, i);
    }
    hide WordText, InsideText;
  }

  /** Text ends outside quotes and unescaped exactly when it can be written of whole pieces and
      spaces: single-quoted, double-quoted, escaped and plain. */
  lemma SettledIsWritten(s: string)
    ensures Settled(s) <==> exists items :: AreItems(items) && s == WordText(items)
  {
    var items, text, inside, tail := TextIsItems(s);
    if Settled(s) {
      assert WordText(items) + "" == WordText(items);
    }
    if items :| AreItems(items) && s == WordText(items) {
      ItemsSettle(START, items);
    }
  }

  // ---------- Two ways to write any token ----------

  /** Each character as it is, the special ones behind a backslash. */
  function Bared(token: string): seq<Piece>
  {
    if token == "" then []
    else [if token[0] in " \t\n\r'\"\\" then Escaped(token[0]) else Plain(token[0])] + Bared(token[1..])
  }

  function Slashes(token: string): seq<Inside>
  {
    if token == "" then [] else [if token[0] in "\"\\" then Slashed(token[0]) else Raw(token[0])] + Slashes(token[1..])
  }

  function DoubleQuoted(token: string): seq<Piece> { [Double(Slashes(token))] }

  lemma {:induction false} BaredIsWord(token: string)
    ensures (token != "" ==> IsWord(Bared(token))) && WordValue(Bared(token)) == token
  {
    if token != "" {
      BaredIsWord(token[1..]);
      assert [token[0]] + token[1..] == token;
    }
  }

  lemma {:induction false} SlashesAreRead(token: string)
    ensures (forall i | i in Slashes(token) :: IsRaw(i)) && InsideValue(Slashes(token)) == token
  {
    if token != "" {
      SlashesAreRead(token[1..]);
      assert [token[0]] + token[1..] == token;
    }
  }

  lemma DoubleQuotedIsWord(token: string)
    ensures IsWord(DoubleQuoted(token)) && WordValue(DoubleQuoted(token)) == token
  {
    SlashesAreRead(token);
    assert DoubleQuoted(token)[1..] == [];
    assert token + "" == token;
  }

  /** The tokens, each written between double quotes or bare, with gaps behind them. */
  function Written(tokens: seq<string>, quoted: seq<bool>, gaps: seq<string>): seq<Spaced>
    requires |quoted| == |tokens| && |gaps| == |tokens|
  {
    seq(|tokens|, i requires 0 <= i < |tokens| => Spaced(if quoted[i] then DoubleQuoted(tokens[i]) else Bared(tokens[i]), gaps[i]))
  }

  lemma {:induction false} CommandValueIs(words: seq<Spaced>, tokens: seq<string>)
    requires |words| == |tokens| && forall i | 0 <= i < |words| :: WordValue(words[i].word) == tokens[i]
    ensures CommandValue(words) == tokens
  {
    if words != [] {
      CommandValueIs(words[1..], tokens[1..]);
      assert tokens == [tokens[0]] + tokens[1..];
    }
  }

  /** Writing any tokens between double quotes, with '"' and '\' behind a backslash, or bare, with
      every special character behind one, and separating them by any white space, splits back to
      those tokens; only an empty one must be quoted. */
  lemma SplitUndoesWriting(tokens: seq<string>, quoted: seq<bool>, gaps: seq<string>)
    requires |quoted| == |tokens| && |gaps| == |tokens|
    requires forall i | 0 <= i < |tokens| ::
      (quoted[i] || tokens[i] != "") && IsGap(gaps[i]) && (i + 1 < |tokens| ==> gaps[i] != "")
    ensures Split(CommandText(Written(tokens, quoted, gaps))) == tokens
    ensures Settled(CommandText(Written(tokens, quoted, gaps)))
  {
    var words := Written(tokens, quoted, gaps);
    forall i | 0 <= i < |words| ensures IsWord(words[i].word) && WordValue(words[i].word) == tokens[i] {
      DoubleQuotedIsWord(tokens[i]);
      BaredIsWord(tokens[i]);
    }
    hide Bared, DoubleQuoted, IsWord, WordValue, CommandText, Settled, Split;
    CommandValueIs(words, tokens);
    CommandsSplit("", words);
    assert "" + CommandText(words) == CommandText(words);
  }
}

/** The target-colour file: one palette entry per line, `<name> <R> <G> <B>`.
    Parsing follows color_namer.py: strip the line, cut it at every single space,
    take the first token as the name and pass every other token through `int()`.
    Neither the token count nor blank lines are checked. */
module PaletteFile {
  import opened Outcome
  import opened Colors
  import opened Text

  /** The tokens of one line after `line.strip().split(' ')`. */
  function Tokens(line: string): (ts: seq<string>)
    ensures |ts| > 0
  {
    Split(Strip(line, StrBlanks))
  }

  /** `int(token)`, with a rejection reported against palette line `line`. */
  function ChannelValue(token: string, line: nat): (r: Result<int>)
    ensures r.Ok? <==> ParseInt(token).Some?
    ensures r.Ok? ==> ParseInt(token) == Some(r.value)
    ensures r.Err? ==> r.error == BadChannel(line, token)
  {
    match ParseInt(token)
    case None => Err(BadChannel(line, token))
    case Some(v) => Ok(v)
  }

  /** Every token after the first: the channel texts. */
  function ChannelTokens(line: string): seq<string>
  {
    Tokens(line)[1..]
  }

  /** `int()` of every token in order; the first token `int()` rejects is reported. */
  function ParseChannels(tokens: seq<string>, line: nat): (r: Result<seq<int>>)
    ensures r.Ok? <==> forall j :: 0 <= j < |tokens| ==> ParseInt(tokens[j]).Some?
    ensures r.Ok? ==> |r.value| == |tokens|
    ensures r.Ok? ==> forall j :: 0 <= j < |tokens| ==> ParseInt(tokens[j]) == Some(r.value[j])
    ensures r.Err? ==> exists j :: 0 <= j < |tokens| && ParseInt(tokens[j]).None?
                                   && r.error == BadChannel(line, tokens[j])
                                   && forall k :: 0 <= k < j ==> ParseInt(tokens[k]).Some?
  {
    CollectFrom(tokens, (token, j) => ChannelValue(token, line), 0)
  }

  /** One `Color` from one line; `line` is its position, for the error report. */
  function ParseLine(text: string, line: nat): (r: Result<Color>)
    ensures r.Ok? <==> forall j :: 0 <= j < |ChannelTokens(text)| ==> ParseInt(ChannelTokens(text)[j]).Some?
    ensures r.Ok? ==> r.value.name == Tokens(text)[0]
    ensures r.Ok? ==> |r.value.rgb| == |ChannelTokens(text)|
    ensures r.Ok? ==> forall j :: 0 <= j < |r.value.rgb| ==> ParseInt(ChannelTokens(text)[j]) == Some(r.value.rgb[j])
    ensures r.Err? ==> exists j :: 0 <= j < |ChannelTokens(text)| && ParseInt(ChannelTokens(text)[j]).None?
                                   && r.error == BadChannel(line, ChannelTokens(text)[j])
                                   && forall k :: 0 <= k < j ==> ParseInt(ChannelTokens(text)[k]).Some?
  {
    match ParseChannels(ChannelTokens(text), line)
    case Err(e) => Err(e)
    case Ok(rgb) => Ok(Color(rgb, Tokens(text)[0]))
  }

  /** `read_target_color_file` over the file's lines: exactly one `Color` per line,
      in line order, or the error of the first line with a token `int()` rejects. */
  function ReadTargetColorFile(lines: seq<string>): (r: Result<seq<Color>>)
    ensures r.Ok? <==> forall i :: 0 <= i < |lines| ==> ParseLine(lines[i], i).Ok?
    ensures r.Ok? ==> |r.value| == |lines|
    ensures r.Ok? ==> forall i :: 0 <= i < |lines| ==> ParseLine(lines[i], i) == Ok(r.value[i])
    ensures r.Err? ==> exists i :: 0 <= i < |lines| && ParseLine(lines[i], i) == Err(r.error)
                                   && forall i' :: 0 <= i' < i ==> ParseLine(lines[i'], i').Ok?
  {
    CollectFrom(lines, ParseLine, 0)
  }

  /** A name the line format can carry: non-empty, no space and no line break
      inside (a line break would end the line), no whitespace at either end
      (which `strip()` would remove). */
  predicate Renderable(c: Color)
  {
    && |c.name| > 0
    && ' ' !in c.name
    && '\n' !in c.name && '\r' !in c.name
    && !IsSpace(c.name[0])
    && !IsSpace(c.name[|c.name| - 1])
  }

  function ChannelTexts(rgb: seq<int>): (ts: seq<string>)
    ensures |ts| == |rgb|
    ensures forall j :: 0 <= j < |rgb| ==> ts[j] == IntToString(rgb[j])
  {
    seq(|rgb|, j requires 0 <= j < |rgb| => IntToString(rgb[j]))
  }

  /** The line `<name> <c0> <c1> ...` that describes `c`: it starts with the
      name, and a renderable colour's line holds no line break. */
  function Render(c: Color): (s: string)
    ensures |s| >= |c.name| && s[..|c.name|] == c.name
    ensures Renderable(c) ==> '\n' !in s && '\r' !in s
  {
    var parts := [c.name] + ChannelTexts(c.rgb);
    JoinStart(parts);
    if Renderable(c) then
      JoinAvoids(parts, '\n');
      JoinAvoids(parts, '\r');
      Join(parts)
    else
      Join(parts)
  }

  /** `int()` reads back every rendered channel. */
  lemma ChannelsRoundTrip(rgb: seq<int>, line: nat)
    ensures ParseChannels(ChannelTexts(rgb), line) == Ok(rgb)
  {
    var ts := ChannelTexts(rgb);
    forall j | 0 <= j < |rgb|
      ensures ParseInt(ts[j]) == Some(rgb[j])
    {
      ParseIntRoundTrip(rgb[j]);
    }
    var r := ParseChannels(ts, line);
    assert r.Ok?;
    assert r.value == rgb;
  }

  /** A rendered line strips to itself and splits into the name and the channel texts. */
  lemma TokensOfRender(c: Color)
    requires Renderable(c)
    ensures Tokens(Render(c)) == [c.name] + ChannelTexts(c.rgb)
  {
    var parts := [c.name] + ChannelTexts(c.rgb);
    var s := Render(c);
    assert forall i :: 0 <= i < |parts| ==> |parts[i]| > 0 && ' ' !in parts[i];
    JoinEnds(parts);
    var last := parts[|parts| - 1];
    assert !IsSpace(last[|last| - 1]);
    StripUnchanged(s, StrBlanks);
    SplitJoin(parts);
  }

  /** Parsing a rendered line gives back the colour: its name and every channel. */
  lemma LineRoundTrip(c: Color, line: nat)
    requires Renderable(c)
    ensures ParseLine(Render(c), line) == Ok(c)
  {
    var parts := [c.name] + ChannelTexts(c.rgb);
    TokensOfRender(c);
    assert ChannelTokens(Render(c)) == ChannelTexts(c.rgb);
    ChannelsRoundTrip(c.rgb, line);
  }

  /** Writing a palette out line by line and reading it back gives the same palette. */
  lemma FileRoundTrip(palette: seq<Color>, lines: seq<string>)
    requires forall i :: 0 <= i < |palette| ==> Renderable(palette[i])
    requires |lines| == |palette| && forall i :: 0 <= i < |lines| ==> lines[i] == Render(palette[i])
    ensures ReadTargetColorFile(lines) == Ok(palette)
  {
    forall i | 0 <= i < |lines|
      ensures ParseLine(lines[i], i) == Ok(palette[i])
    {
      LineRoundTrip(palette[i], i);
    }
    var r := ReadTargetColorFile(lines);
    assert r.Ok?;
    assert forall i :: 0 <= i < |lines| ==> Ok(r.value[i]) == Ok(palette[i]);
    assert r.value == palette;
  }

  /** A blank (or all-whitespace) line is not skipped: it becomes a colour with
      the empty name and no channels. */
  lemma BlankLine(text: string, line: nat)
    requires forall i :: 0 <= i < |text| ==> IsSpace(text[i])
    ensures ParseLine(text, line) == Ok(Color([], ""))
  {
    StripAllSpace(text, StrBlanks);
    assert Split("") == [""];
  }
}

/** What one line of a configuration text means: its layout, its comment, its value, and the keys that count. */
module YamlLines {
  import opened Common
  import opened YamlText
  import opened NodeConfig
  import opened NodeConfigYaml

  /** Nothing but blanks, tabs, line ends and the other white space of the C locale. */
  predicate Blank(w: string) {
    forall c <- w :: c in {' ', '\t', '\n', '\U{0B}', '\U{0C}', '\r'}
  }

  /** Empty, or from a '#' on. */
  predicate Comment(c: string) {
    c == "" || c[0] == '#'
  }

  // ------------------------------------------------------------------ trimming

  lemma {:induction false} TrimStartSkips(w: string, s: string)
    requires Blank(w)
    ensures TrimStart(w + s) == TrimStart(s)
  {
    assert forall k :: 0 <= k < |w| ==> (w + s)[k] in w;
    TrimStartIndex(w + s, |w|);
    assert (w + s)[|w|..] == s;
  }

  lemma {:induction false} TrimEndSkips(s: string, w: string)
    requires Blank(w)
    ensures TrimEnd(s + w) == TrimEnd(s)
  {
    assert forall k :: |s| <= k < |s + w| ==> (s + w)[k] in w;
    TrimEndIndex(s + w, |s|);
    assert (s + w)[..|s|] == s;
  }

  /** Where trimming stops at the front. */
  lemma {:induction false} TrimStartJoins(a: string, d: string)
    requires d != "" && !IsSpace(d[0])
    ensures TrimStart(a + d) == TrimStart(a) + d
  {
    if a == "" {
      assert a + d == d;
    } else if IsSpace(a[0]) {
      assert (a + d)[1..] == a[1..] + d;
      TrimStartJoins(a[1..], d);
    }
  }

  /** And at the end. */
  lemma {:induction false} TrimEndJoins(a: string, d: string)
    requires d != "" && !IsSpace(d[0])
    ensures TrimEnd(a + d) == a + TrimEnd(d)
    ensures TrimEnd(d) != "" && TrimEnd(d)[0] == d[0]
    decreases |d|
  {
    if IsSpace(d[|d| - 1]) {
      assert (a + d)[..|a + d| - 1] == a + d[..|d| - 1];
      TrimEndJoins(a, d[..|d| - 1]);
    }
  }

  lemma {:induction false} TrimSplits(a: string, d: string)
    requires d != "" && !IsSpace(d[0])
    ensures Trim(a + d) == TrimStart(a) + TrimEnd(d)
    ensures TrimEnd(d) != "" && TrimEnd(d)[0] == d[0]
  {
    TrimStartJoins(a, d);
    TrimEndJoins(TrimStart(a), d);
  }

  lemma {:induction false} TrimStartTwice(s: string)
    ensures TrimStart(TrimStart(s)) == TrimStart(s)
    ensures TrimStart(s) != "" ==> !IsSpace(TrimStart(s)[0])
    ensures Blank(s) <==> TrimStart(s) == ""
  {
    if s != "" && IsSpace(s[0]) {
      TrimStartTwice(s[1..]);
      BlankFrom(s);
    } else if s != "" {
      assert s[0] in s;
    }
  }

  lemma BlankFrom(s: string)
    requires s != "" && IsSpace(s[0])
    ensures Blank(s) <==> Blank(s[1..])
  {
    assert s == [s[0]] + s[1..];
    if Blank(s) {
      forall c | c in s[1..] ensures IsSpace(c) { assert c in s; }
    }
  }

  /** White space around a text does not show in it when trimmed. */
  lemma {:induction false} TrimAround(w1: string, s: string, w2: string)
    requires Blank(w1) && Blank(w2)
    ensures Trim(w1 + s + w2) == Trim(s)
  {
    assert w1 + s + w2 == w1 + (s + w2);
    TrimStartSkips(w1, s + w2);
    var u := TrimStart(s);
    TrimStartTwice(s);
    if u == "" {
      TrimStartSkips(s, w2);
      TrimStartTwice(w2);
    } else {
      TrimStartOfMore(s, w2);
      TrimEndSkips(u, w2);
    }
  }

  lemma {:induction false} TrimStartOfMore(s: string, t: string)
    requires TrimStart(s) != ""
    ensures TrimStart(s + t) == TrimStart(s) + t
  {
    if IsSpace(s[0]) {
      assert (s + t)[1..] == s[1..] + t;
      TrimStartOfMore(s[1..], t);
    }
  }

  /** A text is what trimming leaves, between white space. */
  lemma {:induction false} Trimmed(s: string) returns (w1: string, w2: string)
    ensures Blank(w1) && Blank(w2) && s == w1 + Trim(s) + w2
    ensures Trim(s) == "" || Tight(Trim(s))
  {
    w1 := TrimmedStart(s);
    w2 := TrimmedEnd(TrimStart(s));
    TrimStartTwice(s);
    hide TrimStart, TrimEnd, Blank;
    assert s == w1 + (TrimEnd(TrimStart(s)) + w2);
  }

  lemma {:induction false} TrimmedStart(s: string) returns (w: string)
    ensures Blank(w) && s == w + TrimStart(s)
  {
    if s != "" && IsSpace(s[0]) {
      var v := TrimmedStart(s[1..]);
      w := [s[0]] + v;
      calc {
        s;
        [s[0]] + s[1..];
        [s[0]] + (v + TrimStart(s[1..]));
        w + TrimStart(s[1..]);
      }
    } else {
      w := "";
    }
  }

  lemma {:induction false} TrimmedEnd(s: string) returns (w: string)
    ensures Blank(w) && s == TrimEnd(s) + w
    ensures TrimEnd(s) == "" || (TrimEnd(s)[0] == s[0] && !IsSpace(TrimEnd(s)[|TrimEnd(s)| - 1]))
    decreases |s|
  {
    if s != "" && IsSpace(s[|s| - 1]) {
      var v := TrimmedEnd(s[..|s| - 1]);
      w := v + [s[|s| - 1]];
      assert s == s[..|s| - 1] + [s[|s| - 1]];
    } else {
      w := "";
    }
  }

  // ------------------------------------------------------------------ the value of a key line

  /** What stands before the first '#'. */
  function Uncommented(r: string): (s: string)
    ensures '#' !in s && s <= r
  {
    r[..Find(r, '#')]
  }

  lemma {:induction false} UncommentedIs(s: string, c: string)
    requires '#' !in s && Comment(c)
    ensures Uncommented(s + c) == s
  {
    if c == "" {
      assert s + c == s;
    } else {
      assert (s + c)[..|s|] == s;
      FindIs(s + c, '#', |s|);
    }
  }

  lemma {:induction false} StripsQuotes(v: string)
    ensures (exists s :: v == Quoted(s)) <==> StripQuotes(v) != v
    ensures forall s :: v == Quoted(s) ==> StripQuotes(v) == s
  {
    forall s | v == Quoted(s) ensures StripQuotes(v) == s && StripQuotes(v) != v {
      assert v[1..|v| - 1] == s;
      assert |v| == |s| + 2;
    }
    if StripQuotes(v) != v {
      assert v == Quoted(v[1..|v| - 1]);
    }
  }

  /** Whatever stands after the colon: the value is what stands before the comment, trimmed and unquoted. */
  lemma {:induction false} CleanIs(r: string)
    ensures Clean(Trim(r)) == StripQuotes(Trim(Uncommented(r)))
  {
    var i := Find(r, '#');
    if i < |r| {
      var a, d := r[..i], r[i..];
      assert r == a + d;
      TrimSplits(a, d);
      var q, b := Trim(r), TrimStart(a);
      TrimStartKeepsOut(a, '#');
      assert q[..|b|] == b && q[|b|] == '#';
      FindIs(q, '#', |b|);
      TrimStartTwice(a);
      hide Trim, TrimStart, TrimEnd;
      assert Clean(q) == StripQuotes(Trim(b));
    } else {
      assert Uncommented(r) == r;
      TrimKeepsOut(r, '#');
      hide Trim;
      assert Clean(Trim(r)) == StripQuotes(Trim(r));
    }
  }

  /** The keys that count in a section. */
  function Keys(section: Section, sub: SubSection): set<string> {
    match section
    case NoSection => {}
    case LoraSection =>
      {"frequency_hz", "tx_power_dbm", "ramp_time", "regulator_mode", "spreading_factor", "bandwidth", "coding_rate",
       "preamble_length", "header_type", "payload_length", "crc", "iq_mode"}
    case TimeoutsSection => {"tx_ms", "rx_ms", "continuous_rx"}
    case RuntimeSection => {"auto_fs", "long_preamble", "use_manual_gain", "manual_gain_value", "lna_setting"}
    case _ =>
      match sub
      case NoSub => {"role"}
      case SpiSub => {"device", "speed_hz", "mode", "bits_per_word"}
      case GpioSub => {"chip"}
      case PinsSub =>
        {"reset", "busy", "has_dio1", "dio1", "has_dio2", "dio2", "has_dio3", "dio3",
         "has_tx_enable", "tx_enable", "tx_enable_active_high", "tx_enable_behavior"}
  }

  /** Any other key is ignored. */
  lemma UnknownKeyIgnored(c: Config, section: Section, sub: SubSection, key: string, v: string)
    requires key !in Keys(section, sub)
    ensures KeyValue(c, section, sub, key, v) == c
  {
    hide ParseU32, ParseU8, ParseI8, ParseBool, ParseTimeout, ParseRole, ParseBehavior, ParseCrc;
  }

  lemma NoCommentInLoraKey(key: string)
    requires key in Keys(LoraSection, NoSub)
    ensures '#' !in key
  {
  }

  lemma NoCommentInPin(key: string)
    requires key in Keys(RadiosRx, PinsSub)
    ensures '#' !in key
  {
  }

  lemma NoCommentInKey(section: Section, sub: SubSection, key: string)
    requires key in Keys(section, sub)
    ensures '#' !in key
  {
    if section == LoraSection {
      NoCommentInLoraKey(key);
    } else if section == RadiosRx || section == RadiosTx {
      if sub == PinsSub {
        NoCommentInPin(key);
      }
    }
  }

  lemma HeaderNames(name: string, s: Section, u: SubSection)
    requires Header(name + ":", s, u).Some?
    ensures name in {"radios", "rx", "tx", "spi", "gpio", "pins", "lora", "timeouts", "runtime"}
  {
    var t := name + ":";
    assert name == t[..|t| - 1];
    assert "radios:"[..6] == "radios" && "rx:"[..2] == "rx" && "tx:"[..2] == "tx";
    assert "spi:"[..3] == "spi" && "gpio:"[..4] == "gpio" && "pins:"[..4] == "pins";
    assert "lora:"[..4] == "lora" && "timeouts:"[..8] == "timeouts" && "runtime:"[..7] == "runtime";
  }

  lemma NoLoraKeyIsHeader(name: string)
    requires name in {"radios", "rx", "tx", "spi", "gpio", "pins", "lora", "timeouts", "runtime"}
    ensures name !in Keys(LoraSection, NoSub)
  {
    assert |name| in {2, 3, 4, 6, 7, 8};
    assert name[0] != 'c' && name[0] != 'i';
  }

  lemma NoPinIsHeader(name: string)
    requires name in {"radios", "rx", "tx", "spi", "gpio", "pins", "lora", "timeouts", "runtime"}
    ensures name !in Keys(RadiosRx, PinsSub)
  {
    assert |name| in {2, 3, 4, 6, 7, 8};
    assert name[0] != 'b' && name[0] != 'd' && name[0] != 'h';
  }

  lemma NoOtherKeyIsHeader(section: Section, sub: SubSection, name: string)
    requires section != LoraSection && ((section == RadiosRx || section == RadiosTx) ==> sub != PinsSub)
    requires name in {"radios", "rx", "tx", "spi", "gpio", "pins", "lora", "timeouts", "runtime"}
    ensures name !in Keys(section, sub)
  {
    assert |name| in {2, 3, 4, 6, 7, 8};
    assert name[0] != 'm' && name[0] != 'c' && name[0] != 'a' && name[0] != 'd';
    assert |name| == 4 ==> name[0] == 'g' || name[0] == 'p' || name[0] == 'l';
    assert |name| == 5 ==> false;
    assert |name| == 8 ==> name[1] == 'i';
  }

  lemma NoKeyIsHeader(section: Section, sub: SubSection, name: string)
    requires name in {"radios", "rx", "tx", "spi", "gpio", "pins", "lora", "timeouts", "runtime"}
    ensures name !in Keys(section, sub)
  {
    hide Keys;
    if section == LoraSection {
      NoLoraKeyIsHeader(name);
      SameKeys(section, sub);
    } else if (section == RadiosRx || section == RadiosTx) && sub == PinsSub {
      NoPinIsHeader(name);
      SameKeys(section, sub);
    } else {
      NoOtherKeyIsHeader(section, sub, name);
    }
  }

  lemma SameKeys(section: Section, sub: SubSection)
    ensures section == LoraSection ==> Keys(section, sub) == Keys(LoraSection, NoSub)
    ensures section == RadiosTx ==> Keys(section, sub) == Keys(RadiosRx, sub)
  {
  }

  // ------------------------------------------------------------------ comments

  /** A line without comment, of which p is left after trimming, and the comment after it. */
  lemma {:induction false} WithComment(l: string, c: string) returns (w: string, d: string)
    requires '#' !in l && c != "" && c[0] == '#' && Trim(l) != ""
    ensures Blank(w) && Comment(d) && d != "" && Trim(l + c) == Trim(l) + w + d
  {
    TrimSplits(l, c);
    d := TrimEnd(c);
    w := TrimmedEnd(TrimStart(l));
    assert Trim(l + c) == Trim(l) + w + d;
  }

  lemma {:induction false} ColonInComment(st: State, p: string, w: string, d: string, v: string)
    requires Tight(p) && '#' !in p && ':' !in p && Blank(w) && Comment(d) && d != ""
    ensures var t := p + w + d; var colon := Find(t, ':');
      colon < |t| ==> KeyValue(st.cfg, st.section, st.sub, Trim(t[..colon]), v) == st.cfg
  {
    hide KeyValue, Keys;
    var t := p + w + d;
    var colon := Find(t, ':');
    if colon < |t| {
      assert t[|p| + |w|] == '#';
      forall k | 0 <= k < |p| + |w| ensures t[k] != ':' {
        if k < |p| {
          assert t[k] == p[k] && p[k] in p;
        } else {
          assert t[k] == w[k - |p|] && w[k - |p|] in w;
        }
      }
      assert t[..colon][|p| + |w|] == '#';
      TrimKeepsComment(t[..colon]);
      if Trim(t[..colon]) in Keys(st.section, st.sub) {
        NoCommentInKey(st.section, st.sub, Trim(t[..colon]));
      }
      UnknownKeyIgnored(st.cfg, st.section, st.sub, Trim(t[..colon]), v);
    }
  }

  lemma TrimKeepsComment(x: string)
    requires '#' in x
    ensures '#' in Trim(x)
  {
    var w1, w2 := Trimmed(x);
    assert '#' !in w1 && '#' !in w2;
  }

  lemma KeyLineApplied(st: State, line: string, t: string, colon: nat)
    requires Trim(line) == t && t != "" && t[0] != '#' && Header(t, st.section, st.sub) == None
    requires colon == Find(t, ':')
    ensures ApplyLine(st, line) == if colon == |t| then st else
      st.(cfg := KeyValue(st.cfg, st.section, st.sub, Trim(t[..colon]), Clean(Trim(t[colon + 1..]))))
  {
    hide Trim, Clean, KeyValue, Header, Find;
  }

  /** What a line does that is no header, no comment and not blank. */
  lemma KeyLineDoes(st: State, line: string, t: string)
    requires Trim(line) == t && t != "" && t[0] != '#' && Header(t, st.section, st.sub) == None
    ensures var colon := Find(t, ':');
      ApplyLine(st, line) == if colon == |t| then st else
        st.(cfg := KeyValue(st.cfg, st.section, st.sub, Trim(t[..colon]),
                            StripQuotes(Trim(Uncommented(t[colon + 1..])))))
  {
    hide Trim, Clean, StripQuotes, KeyValue, Header, ApplyLine, Uncommented;
    var colon := Find(t, ':');
    KeyLineApplied(st, line, t, colon);
    if colon < |t| {
      CleanIs(t[colon + 1..]);
    }
  }

  /** The value does not depend on the comment. */
  lemma {:induction false} SameKeyAndValue(p: string, w: string, d: string)
    requires ':' in p && '#' !in p && Blank(w) && Comment(d)
    ensures var t := p + w + d; var colon := Find(p, ':');
      && colon < |p| && Find(t, ':') == colon && t[..colon] == p[..colon]
      && Trim(Uncommented(t[colon + 1..])) == Trim(Uncommented(p[colon + 1..]))
  {
    var t := p + w + d;
    var colon := Find(p, ':');
    assert t[..colon] == p[..colon] && t[colon] == p[colon];
    FindIs(t, ':', colon);
    var r := p[colon + 1..];
    assert t[colon + 1..] == r + w + d;
    assert '#' !in r + w;
    UncommentedIs(r + w, d);
    assert r + "" == r;
    UncommentedIs(r, "");
    assert "" + r + w == r + w;
    TrimAround("", r, w);
  }

  /** A comment after a line: on a blank line and after a key line it changes nothing; a header line is no
      header any more, and the line is ignored. */
  lemma {:induction false} CommentAfterLine(st: State, l: string, c: string)
    requires '#' !in l && c != "" && c[0] == '#'
    ensures ApplyLine(st, l + c) == if Header(Trim(l), st.section, st.sub).Some? then st else ApplyLine(st, l)
  {
    var p := Trim(l);
    if p == "" {
      BlankThenComment(l, c);
    } else {
      var w, d := WithComment(l, c);
      var w1, w2 := Trimmed(l);
      TrimKeepsOut(l, '#');
      hide Trim, ApplyLine;
      assert p[0] in p;
      CommentedLine(st, l, l + c, p, w, d);
    }
  }

  lemma {:induction false} CommentedLine(st: State, l: string, lc: string, p: string, w: string, d: string)
    requires Tight(p) && '#' !in p && p[0] != '#' && Blank(w) && Comment(d) && d != ""
    requires Trim(l) == p && Trim(lc) == p + w + d
    ensures ApplyLine(st, lc) == if Header(p, st.section, st.sub).Some? then st else ApplyLine(st, l)
  {
    var t := p + w + d;
    assert t[0] == p[0] && t[|p| + |w|] == '#';
    if Header(t, st.section, st.sub).Some? {
      assert false;
    }
    hide ApplyLine, Trim, Header, KeyValue;
    KeyLineDoes(st, lc, t);
    if ':' !in p {
      ColonInCommentLine(st, l, lc, p, w, d);
    } else {
      SameKeyAndValue(p, w, d);
      if Header(p, st.section, st.sub).Some? {
        CommentedHeader(st, p, StripQuotes(Trim(Uncommented(t[Find(t, ':') + 1..]))));
      } else {
        KeyLineDoes(st, l, p);
      }
    }
  }

  lemma CommentedHeader(st: State, p: string, v: string)
    requires Header(p, st.section, st.sub).Some?
    ensures Find(p, ':') < |p| && KeyValue(st.cfg, st.section, st.sub, Trim(p[..Find(p, ':')]), v) == st.cfg
  {
    var name := HeaderName(p, st.section, st.sub);
    hide Header, KeyValue, Keys, Trim, Tight;
    FindIs(p, ':', |p| - 1);
    HeaderNames(name, st.section, st.sub);
    NoKeyIsHeader(st.section, st.sub, name);
    UnknownKeyIgnored(st.cfg, st.section, st.sub, name, v);
    TightTrim(name);
  }

  lemma HeaderName(t: string, s: Section, u: SubSection) returns (name: string)
    requires Header(t, s, u).Some?
    ensures t == name + ":" && t[..|t| - 1] == name && ':' !in name && Tight(name)
  {
    name := t[..|t| - 1];
  }

  lemma TightTrim(s: string)
    requires Tight(s)
    ensures Trim(s) == s
  {
    TrimIndented("", s);
    assert "" + s == s;
  }

  lemma ColonInCommentLine(st: State, l: string, lc: string, p: string, w: string, d: string)
    requires Tight(p) && '#' !in p && ':' !in p && Blank(w) && Comment(d) && d != ""
    requires Trim(l) == p && Trim(lc) == p + w + d && Header(p + w + d, st.section, st.sub) == None
    ensures Header(p, st.section, st.sub) == None
    ensures ApplyLine(st, lc) == st == ApplyLine(st, l)
  {
    hide Trim, Header, KeyValue;
    var t := p + w + d;
    assert p[0] in p && t[0] == p[0];
    HeaderHasColon(p, st.section, st.sub);
    var colon := Find(t, ':');
    if colon < |t| {
      ColonInComment(st, p, w, d, Clean(Trim(t[colon + 1..])));
    }
  }

  lemma {:induction false} BlankThenComment(l: string, c: string)
    requires Trim(l) == "" && c != "" && c[0] == '#'
    ensures Trim(l + c) != "" && Trim(l + c)[0] == '#'
  {
    var w1, w2 := Trimmed(l);
    assert Blank(l);
    TrimStartTwice(l);
    TrimSplits(l, c);
  }

  lemma HeaderHasColon(t: string, s: Section, u: SubSection)
    requires ':' !in t
    ensures Header(t, s, u) == None
  {
    if Header(t, s, u).Some? {
      assert false;
    }
  }

  /** The nine header lines. */
  predicate IsHeader(t: string) {
    t in {"radios:", "rx:", "tx:", "spi:", "gpio:", "pins:", "lora:", "timeouts:", "runtime:"}
  }

  lemma HeadersAre(t: string, s: Section, u: SubSection)
    ensures Header(t, s, u).Some? <==> IsHeader(t)
  {
  }

  /** A comment put after any line of a text changes nothing, unless the line is a header. */
  lemma {:induction false} CommentChangesNothing(a: string, l: string, c: string, b: string)
    requires WholeLines(a) && '\n' !in l + c && '#' !in l && Comment(c)
    requires !IsHeader(Trim(l))
    ensures Parse(a + l + c + "\n" + b) == Parse(a + l + "\n" + b)
    ensures Parse(a + l + c) == Parse(a + l)
  {
    hide ParseText, ApplyLine, Trim;
    if c == "" {
      assert a + l + c == a + l;
    } else {
      assert '\n' !in l;
      assert a + l + c + "\n" + b == a + ((l + c) + "\n" + b) && a + l + c == a + (l + c);
      assert a + l + "\n" + b == a + (l + "\n" + b);
      ParseAppended(START, a, (l + c) + "\n" + b);
      ParseAppended(START, a, l + "\n" + b);
      ParseAppended(START, a, l + c);
      ParseAppended(START, a, l);
      var st := ParseText(START, a);
      LineRead(st, l + c, b);
      LineRead(st, l, b);
      LastLineRead(st, l + c);
      LastLineRead(st, l);
      HeadersAre(Trim(l), st.section, st.sub);
      CommentAfterLine(st, l, c);
    }
  }

  /** A header with a comment after it does not count: the text reads as if the line were not there, so the keys
      that follow go to the section before it. */
  lemma {:induction false} CommentedHeaderIsIgnored(a: string, l: string, c: string, b: string)
    requires WholeLines(a) && '\n' !in l + c && c != "" && Comment(c) && IsHeader(Trim(l))
    ensures Parse(a + l + c + "\n" + b) == Parse(a + b)
  {
    HeaderLineShape(l);
    hide ParseText, ApplyLine, Trim, IsHeader;
    assert a + l + c + "\n" + b == a + ((l + c) + "\n" + b);
    ParseAppended(START, a, (l + c) + "\n" + b);
    ParseAppended(START, a, b);
    var st := ParseText(START, a);
    LineRead(st, l + c, b);
    HeadersAre(Trim(l), st.section, st.sub);
    CommentAfterLine(st, l, c);
  }

  lemma HeaderLineShape(l: string)
    requires IsHeader(Trim(l))
    ensures '#' !in l
  {
    var w1, w2 := Trimmed(l);
    hide Trim;
    assert '#' !in w1 && '#' !in Trim(l) && '#' !in w2;
  }

  // ------------------------------------------------------------------ the layout of a key line

  lemma {:induction false} BlankBeforeComment(r: string, w: string)
    requires Blank(w)
    ensures Trim(Uncommented(r + w)) == Trim(Uncommented(r))
  {
    var i := Find(r, '#');
    if i < |r| {
      assert r == r[..i] + r[i..] && r + w == r[..i] + (r[i..] + w);
      UncommentedIs(r[..i], r[i..] + w);
    } else {
      assert '#' !in r + w;
      assert r + w + "" == r + w && r + "" == r && "" + r + w == r + w;
      UncommentedIs(r + w, "");
      UncommentedIs(r, "");
      TrimAround("", r, w);
    }
  }

  /** A key line: white space, the key, white space, a colon, and the rest. */
  function Line(w1: string, key: string, w2: string, r: string): string {
    w1 + (key + w2 + (":" + r))
  }

  /** What is left of a key line when trimmed. */
  lemma {:induction false} KeyLineTrimmed(w1: string, key: string, w2: string, r: string)
      returns (r': string, w: string)
    requires KeyOk(key) && Blank(w1)
    ensures Blank(w) && r == r' + w && Trim(Line(w1, key, w2, r)) == Line("", key, w2, r')
  {
    var e := ":" + r;
    var d := key + w2 + e;
    TrimStartSkips(w1, d);
    assert d[0] == key[0] && TrimStart(d) == d;
    TrimEndJoins(key + w2, e);
    w := TrimmedEnd(e);
    r' := ColonKept(r, TrimEnd(e), w);
    assert "" + (key + w2 + (":" + r')) == key + w2 + (":" + r');
  }

  lemma ColonKept(r: string, f: string, w: string) returns (r': string)
    requires f != "" && f[0] == ':' && ":" + r == f + w
    ensures f == ":" + r' && r == r' + w
  {
    r' := f[1..];
    assert (":" + r)[1..] == r && (f + w)[1..] == r' + w;
  }

  lemma ColonFound(key: string, w2: string, r: string)
    requires KeyOk(key) && Blank(w2)
    ensures var t := Line("", key, w2, r); var colon := |key| + |w2|;
      && t != "" && t[0] == key[0] && Find(t, ':') == colon < |t|
      && t[..colon] == key + w2 && t[colon + 1..] == r
  {
    var t := Line("", key, w2, r);
    var colon := |key| + |w2|;
    assert t == key + w2 + (":" + r);
    assert t[..colon] == key + w2 && t[colon] == ':' && t[colon + 1..] == r;
    assert ':' !in key + w2;
    FindIs(t, ':', colon);
  }

  lemma KeyTrimmed(key: string, w: string)
    requires KeyOk(key) && Blank(w)
    ensures Trim(key + w) == key
  {
    assert "" + key + w == key + w;
    TrimAround("", key, w);
    TightTrim(key);
  }

  /** For every state, key, white space and rest of the line: a key line that is no header sets that key to what
      stands between the colon and the comment, trimmed and unquoted. */
  lemma {:induction false} KeyLineMeans(st: State, w1: string, key: string, w2: string, r: string)
    requires KeyOk(key) && Blank(w1) && Blank(w2)
    requires !IsHeader(Trim(Line(w1, key, w2, r)))
    ensures ApplyLine(st, Line(w1, key, w2, r))
         == st.(cfg := KeyValue(st.cfg, st.section, st.sub, key, StripQuotes(Trim(Uncommented(r)))))
  {
    hide Trim, KeyValue, StripQuotes, ApplyLine, IsHeader, Line, Uncommented;
    var r', w := KeyLineTrimmed(w1, key, w2, r);
    var t := Line("", key, w2, r');
    ColonFound(key, w2, r');
    HeadersAre(t, st.section, st.sub);
    hide Header, Find, Blank;
    KeyLineDoes(st, Line(w1, key, w2, r), t);
    KeyTrimmed(key, w2);
    BlankBeforeComment(r', w);
  }

  /** The layout of a key line does not matter: white space in its four places, and a comment. */
  lemma {:induction false} LayoutDoesNotMatter(st: State, w1: string, key: string, w2: string, w3: string, v: string,
                                               w4: string, c: string)
    requires KeyOk(key) && Tight(v) && '#' !in v && Comment(c)
    requires Blank(w1) && Blank(w2) && Blank(w3) && Blank(w4)
    ensures ApplyLine(st, w1 + key + w2 + ":" + w3 + v + w4 + c)
         == ApplyLine(st, key + ":" + v)
         == st.(cfg := KeyValue(st.cfg, st.section, st.sub, key, StripQuotes(v)))
  {
    LineIs(w1, key, w2, w3, v, w4, c);
    LineIs("", key, "", "", v, "", "");
    assert "" + key + "" + ":" + "" + v + "" + "" == key + ":" + v;
    hide ApplyLine, KeyValue, StripQuotes, Line, KeyOk, Tight;
    OneLayout(st, w1, key, w2, w3, v, w4, c);
    OneLayout(st, "", key, "", "", v, "", "");
  }

  lemma LineIs(w1: string, key: string, w2: string, w3: string, v: string, w4: string, c: string)
    ensures w1 + key + w2 + ":" + w3 + v + w4 + c == Line(w1, key, w2, w3 + v + w4 + c)
  {
  }

  lemma {:induction false} OneLayout(st: State, w1: string, key: string, w2: string, w3: string, v: string,
                                     w4: string, c: string)
    requires KeyOk(key) && Tight(v) && '#' !in v && Comment(c)
    requires Blank(w1) && Blank(w2) && Blank(w3) && Blank(w4)
    ensures ApplyLine(st, Line(w1, key, w2, w3 + v + w4 + c))
         == st.(cfg := KeyValue(st.cfg, st.section, st.sub, key, StripQuotes(v)))
  {
    hide Trim, KeyValue, StripQuotes, ApplyLine, Line, IsHeader, KeyOk;
    var r := w3 + v + w4 + c;
    ValueTrimmed(w3, v, w4, c);
    var r', w := KeyLineTrimmed(w1, key, w2, r);
    assert r' != "" by {
      assert r[|w3|] == v[0];
      assert v[0] in r' + w && v[0] !in w;
    }
    NotHeader(key, w2, r');
    KeyLineMeans(st, w1, key, w2, r);
  }

  lemma ValueTrimmed(w3: string, v: string, w4: string, c: string)
    requires Tight(v) && '#' !in v && Comment(c) && Blank(w3) && Blank(w4)
    ensures Trim(Uncommented(w3 + v + w4 + c)) == v
  {
    hide Trim, Uncommented;
    assert '#' !in w3 + v + w4;
    UncommentedIs(w3 + v + w4, c);
    TrimAround(w3, v, w4);
    TightTrim(v);
  }

  lemma NotHeader(key: string, w2: string, r: string)
    requires r != ""
    ensures !IsHeader(Line("", key, w2, r))
  {
    var t := Line("", key, w2, r);
    assert t[..|t| - 1][|key| + |w2|] == ':';
    HeadersAre(t, NoSection, NoSub);
    if IsHeader(t) {
      assert false;
    }
  }

  // ------------------------------------------------------------------ values

  /** Every decimal number, for every kind of number field: what is out of range leaves the old value, except that
      a 64-bit number is cut to 32 bits. */
  lemma {:induction false} NumbersRead(n: nat, o32: U32, o8: U8, o: TickTime)
    ensures ParseU32(Decimal(n), o32) == if n >= 0x1_0000_0000_0000_0000 then o32 else n % 0x1_0000_0000
    ensures ParseU8(Decimal(n), o8) == if n > 0xFF then o8 else n
    ensures ParseTimeout(Decimal(n), o)
         == if n >= 0x1_0000_0000_0000_0000 then o else TickTime(Tick1000us, Min(n % 0x1_0000_0000, 0xFFFF))
  {
    StoulExact(n);
  }

  lemma {:induction false} PowerRead(n: int, o: I8)
    ensures ParseI8(SignedDecimal(n), o) == if -128 <= n <= 127 then n else o
  {
    StolExact(n);
  }

  /** A value that does not begin with a number, after white space and a sign, leaves the old one. */
  lemma NoNumberRead(v: string, o32: U32, o8: U8, i8: I8, o: TickTime)
    requires !BeginsWithNumber(v)
    ensures ParseU32(v, o32) == o32 && ParseU8(v, o8) == o8 && ParseI8(v, i8) == i8 && ParseTimeout(v, o) == o
  {
    NumberExactly(v);
  }

  /** The names each field knows; all others stand for the last of its values, or leave a flag as it was. */
  lemma NamesRead(v: string, o: bool)
    ensures v !in {"rx", "tx"} <==> ParseRole(v) == TxRx
    ensures v !in {"static_asserted", "static_deasserted", "assert_during_tx"} <==> ParseBehavior(v) == NoBehavior
    ensures v != "off" <==> ParseCrc(v) == CrcOn
    ensures v !in {"true", "false"} <==> forall b :: ParseBool(v, b) == b
  {
    assert v == "true" ==> ParseBool(v, false) != false;
    assert v == "false" ==> ParseBool(v, true) != true;
  }

  // ------------------------------------------------------------------ sections

  /** No line of the text is a header. */
  predicate NoHeader(text: string)
    decreases |text|
  {
    text == "" ||
    (var i := Find(text, '\n');
     !IsHeader(Trim(text[..i])) && (i < |text| ==> NoHeader(text[i + 1..])))
  }

  lemma LineKeepsSection(st: State, line: string)
    requires !IsHeader(Trim(line))
    ensures ApplyLine(st, line).section == st.section && ApplyLine(st, line).sub == st.sub
    ensures st.section == NoSection ==> ApplyLine(st, line) == st
  {
    HeadersAre(Trim(line), st.section, st.sub);
    hide Trim, Clean, Header, Find, RadioKey, RfKey, LoraKey, TimeoutKey, RuntimeKey;
  }

  /** A section lasts until the next header line; keys outside of all sections, as before the first header and
      directly under "radios:", have no effect. */
  lemma {:induction false} SectionLasts(st: State, text: string)
    requires NoHeader(text)
    ensures ParseText(st, text).section == st.section && ParseText(st, text).sub == st.sub
    ensures st.section == NoSection ==> ParseText(st, text) == st
    decreases |text|
  {
    hide ApplyLine, IsHeader, Trim;
    if text != "" {
      var i := Find(text, '\n');
      LineKeepsSection(st, text[..i]);
      if i < |text| {
        SectionLasts(ApplyLine(st, text[..i]), text[i + 1..]);
      } else {
        assert text[..i] == text;
      }
    }
  }

  /** A text without header lines leaves all the defaults. */
  lemma NoHeaderGivesDefaults(text: string)
    requires NoHeader(text)
    ensures var c := Parse(text);
      && c.rx == c.tx
      && c.rx == Radio(TxRx, Spi("/dev/spidev0.0", 1_000_000, 0, 8), "/dev/gpiochip0", c.rx.pins)
      && !c.rx.pins.hasDio1 && !c.rx.pins.hasDio2 && !c.rx.pins.hasDio3
      && !c.rx.pins.hasTxEnable && c.rx.pins.txEnableActiveHigh && c.rx.pins.txEnableBehavior == NoBehavior
      && c.rf == Rf(2_400_000_000, 10, Ramp20, Dcdc)
      && c.lora == Lora(Sf7, Bw0800, Cr45, 12, VariableLength, 255, CrcOn, IqNormal)
      && c.timeouts == Timeouts(TickTime(Tick1000us, 2000), TickTime(Tick1000us, 2000), true)
      && c.runtime == Runtime(true, false, false, 0, HighSensitivity)
  {
    hide ParseText;
    SectionLasts(START, text);
  }

  /** What each header line leads to: three of them stay in the section, the others leave its subsection. */
  lemma HeadersLead(st: State, l: string)
    requires IsHeader(Trim(l))
    ensures var st' := ApplyLine(st, l);
      && st'.cfg == st.cfg
      && (Trim(l) == "radios:" ==> st'.section == NoSection)
      && (Trim(l) == "lora:" ==> st'.section == LoraSection)
      && (Trim(l) == "timeouts:" ==> st'.section == TimeoutsSection)
      && (Trim(l) == "runtime:" ==> st'.section == RuntimeSection)
      && (Trim(l) in {"spi:", "gpio:", "pins:"} <==> st'.sub != NoSub)
      && (st'.sub != NoSub ==> st'.section == st.section)
      && (st'.section == RadiosRx <==> Trim(l) == "rx:" || (st'.sub != NoSub && st.section == RadiosRx))
      && (st'.section == RadiosTx <==> Trim(l) == "tx:" || (st'.sub != NoSub && st.section == RadiosTx))
  {
    hide Trim, KeyValue, Clean, Find;
  }
}

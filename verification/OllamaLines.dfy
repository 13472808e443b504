/** What the lines of a pull come to. */
module OllamaLines {
  // The parser is stated on the lines themselves: which text makes a line an error, a success or progress, and what a
  // whole sequence of lines shows.

  import opened Options
  import opened Text
  import opened OllamaPullOutput

  // ---------------------------------------------------------------------------------------------------
  // One line
  // ---------------------------------------------------------------------------------------------------

  predicate Blank(s: string) {
    forall c <- s :: c == ' ' || c == '\t' || c == '\n' || c == '\r'
  }

  predicate IsBlank(c: char) {
    c == ' ' || c == '\t' || c == '\n' || c == '\r'
  }

  /** Some text without blanks at its ends, and blanks around it. */
  predicate Wraps(raw: string, before: string, t: string, after: string) {
    raw == before + t + after && Blank(before) && Blank(after) && (t != "" ==> !IsBlank(t[0]) && !IsBlank(t[|t| - 1]))
  }

  /** The word `error`, in letters of either case. */
  predicate StartsWithError(t: string) {
    && |t| >= 5 && t[0] in "eE" && t[1] in "rR" && t[2] in "rR" && t[3] in "oO" && t[4] in "rR"
  }

  lemma {:induction false} LowerError(t: string)
    ensures "error" <= Lower(t) <==> StartsWithError(t)
  {
    var l := Lower(t);
    if |t| >= 5 {
      assert l[..5] == [l[0], l[1], l[2], l[3], l[4]];
    }
  }

  /** What kind of line it is, whatever blanks stand around it. */
  lemma {:induction false} KindOfLine(raw: string, before: string, t: string, after: string)
    requires Wraps(raw, before, t, after)
    ensures var e := Classify(raw);
      && (e.Error? <==> StartsWithError(t)) && (e.Error? ==> e.message == t)
      && (e.Success? <==> t == "success")
      && (e.ManifestStart? <==> "pulling manifest" <= t)
      && (e.Verifying? <==> "verifying" <= t)
      && (e.Writing? <==> "writing" <= t)
      && (e.LayerProgress? <==> "pulling " <= t && !("pulling manifest" <= t) && ExtractPercent(t).Some?)
      && (e.LayerProgress? ==> e.digest == ExtractLayerDigest(t) && e.percent == ExtractPercent(t).value)
  {
    TrimExactly(before, t, after, IsSpaceOrNewline);
    LowerError(t);
    FirstLetters(t);
  }

  /** The openings exclude each other. */
  lemma {:induction false} FirstLetters(t: string)
    ensures StartsWithError(t) ==> t[0] == 'e' || t[0] == 'E'
    ensures t == "success" || "success" <= t ==> t[0] == 's'
    ensures "pulling " <= t || "pulling manifest" <= t ==> t[0] == 'p'
    ensures "verifying" <= t ==> t[0] == 'v'
    ensures "writing" <= t ==> t[0] == 'w'
    ensures "pulling manifest" <= t ==> "pulling " <= t
  {
    assert "pulling manifest"[..8] == "pulling ";
  }

  lemma {:induction false} ValueSnoc(digits: string, d: char)
    requires IsDigit(d)
    ensures Value(digits + [d]) == 10 * Value(digits) + (d as int - '0' as int)
  {
    assert (digits + [d])[..|digits|] == digits;
  }

  /** Reading a number undoes writing it. */
  lemma {:induction false} ValueOfNumeral(n: nat)
    ensures Value(Numeral(n)) == n
  {
    var d := ('0' as int + n % 10) as char;
    if n >= 10 {
      ValueOfNumeral(n / 10);
      ValueSnoc(Numeral(n / 10), d);
    } else {
      ValueSnoc("", d);
      assert "" + [d] == Numeral(n);
    }
  }

  /** An integer as it is shown: its digits, behind a sign exactly if it is negative. */
  lemma {:induction false} DecimalReads(n: int)
    ensures n < 0 ==> Decimal(n) == "-" + Numeral(-n) && Value(Numeral(-n)) == -n
    ensures 0 <= n ==> Decimal(n) == Numeral(n) && Value(Numeral(n)) == n
  {
    ValueOfNumeral(if n < 0 then -n else n);
  }

  lemma {:induction false} PercentAt(line: string, start: nat, end: nat, sign: nat, n: nat)
    requires start <= end <= sign < |line| && line[sign] == '%' && line[start..end] == Numeral(n)
    requires forall k :: 0 <= k < sign ==> line[k] != '%'
    requires forall k :: end <= k < sign ==> IsBlank(line[k])
    requires start > 0 ==> !IsDigit(line[start - 1])
    ensures ExtractPercent(line) == Some(n)
  {
    var number := Numeral(n);
    assert forall k :: start <= k < end ==> line[k] == number[k - start] && number[k - start] in number;
    SkipWhileIs(line, c => c != '%', 0, sign);
    assert line[end - 1] == number[|number| - 1] && number[|number| - 1] in number;
    SkipBackIs(line, IsSpaceOrNewline, sign, end);
    SkipBackIs(line, IsDigit, end, start);
    ValueOfNumeral(n);
  }

  lemma {:induction false} Parts(a: string, b: string, d: string, e: string)
    ensures var s := a + b + d + e;
      && s[..|a|] == a && s[|a|..|a| + |b|] == b && s[|a| + |b|..|a| + |b| + |d|] == d
      && |s| == |a| + |b| + |d| + |e| && s[|a| + |b| + |d|..] == e
  {
  }

  lemma {:induction false} NotIn(s: string, c: char, from: nat, part: string)
    requires from + |part| <= |s| && s[from..from + |part|] == part && c !in part
    ensures forall k :: from <= k < from + |part| ==> s[k] != c
  {
    forall k | from <= k < from + |part| ensures s[k] != c
    {
      assert s[from..from + |part|][k - from] == s[k];
      assert part[k - from] in part;
    }
  }

  lemma {:induction false} BlankIn(s: string, from: nat, part: string)
    requires from + |part| <= |s| && s[from..from + |part|] == part && Blank(part)
    ensures forall k :: from <= k < from + |part| ==> IsBlank(s[k])
  {
    forall k | from <= k < from + |part| ensures IsBlank(s[k])
    {
      assert s[from..from + |part|][k - from] == s[k];
      assert part[k - from] in part;
    }
  }

  lemma {:induction false} PartEnds(s: string, front: string, at: nat, back: string)
    requires |front| <= |s| && s[..|front|] == front && at <= |s| && s[at..] == back && back != ""
    ensures at < |s| && s[at] == back[0] && (front != "" ==> s[|front| - 1] == front[|front| - 1])
  {
    assert s[at..][0] == s[at];
    assert front != "" ==> s[..|front|][|front| - 1] == s[|front| - 1];
  }

  /** The percentage is the number in front of the first percent sign, blanks between them allowed. */
  lemma {:induction false} PercentIs(before: string, n: nat, blanks: string, after: string)
    requires '%' !in before && (before != "" ==> !IsDigit(before[|before| - 1])) && Blank(blanks)
    ensures ExtractPercent(before + Numeral(n) + blanks + ("%" + after)) == Some(n)
  {
    var line, number := before + Numeral(n) + blanks + ("%" + after), Numeral(n);
    var start, end := |before|, |before| + |number|;
    var sign := end + |blanks|;
    Parts(before, number, blanks, "%" + after);
    NotIn(line, '%', 0, before);
    NotIn(line, '%', start, number);
    NotIn(line, '%', end, blanks);
    BlankIn(line, end, blanks);
    PartEnds(line, before, sign, "%" + after);
    PercentAt(line, start, end, sign, n);
  }

  /** There is none without a percent sign, or when no digit comes before the first one. */
  lemma {:induction false} NoPercent(line: string)
    requires '%' !in line
    ensures ExtractPercent(line) == None
  {
    SkipWhileIs(line, c => c != '%', 0, |line|);
  }

  lemma {:induction false} NoNumber(before: string, blanks: string, after: string)
    requires '%' !in before && Blank(blanks)
    requires before == "" || !(IsDigit(before[|before| - 1]) || IsBlank(before[|before| - 1]))
    ensures ExtractPercent(before + blanks + "%" + after) == None
  {
    var line, end := before + blanks + "%" + after, |before|;
    var sign := end + |blanks|;
    assert forall k :: 0 <= k < end ==> line[k] == before[k] && line[k] in before;
    assert forall k :: end <= k < sign ==> line[k] == blanks[k - end] && line[k] in blanks;
    assert line[sign] == '%';
    SkipWhileIs(line, c => c != '%', 0, sign);
    SkipBackIs(line, IsSpaceOrNewline, sign, end);
    SkipBackIs(line, IsDigit, end, end);
  }

  /** The token behind `pulling `, up to a blank or a dot, is a digest if it is hexadecimal. */
  lemma {:induction false} DigestIs(token: string, rest: string)
    requires forall c <- token :: !IsBlank(c) && c != '.'
    requires rest == "" || IsBlank(rest[0]) || rest[0] == '.'
    ensures ExtractLayerDigest("pulling " + token + rest)
         == if token != "" && forall c <- token :: IsHex(c) then Some(token) else None
  {
    var line := "pulling " + token + rest;
    assert "pulling " <= line && line[|"pulling "|..] == token + rest;
    var tail := token + rest;
    assert forall k :: 0 <= k < |token| ==> tail[k] == token[k] && tail[k] in token;
    SkipWhileIs(tail, c => !IsSpaceOrNewline(c) && c != '.', 0, |token|);
    assert tail[..|token|] == token;
  }

  predicate IsHexDigit(c: char) {
    '0' <= c <= '9' || 'a' <= c <= 'f' || 'A' <= c <= 'F'
  }

  /** A progress line as the program prints it: the digest, dots, and somewhere behind them the percentage. */
  lemma {:induction false} ProgressLine(token: string, middle: string, n: nat)
    requires token != "" && forall c <- token :: IsHexDigit(c)
    requires middle != "" && (IsBlank(middle[0]) || middle[0] == '.') && '%' !in middle
    requires !IsDigit(middle[|middle| - 1])
    ensures Classify("pulling " + token + middle + Numeral(n) + "%") == LayerProgress(Some(token), n)
  {
    var t, opening, number := "pulling " + token + middle + Numeral(n) + "%", "pulling " + token + middle, Numeral(n);
    OpeningHasNoPercent(token, middle);
    PercentIs(opening, n, "", "");
    EmptyParts(opening, number);
    Regroup("pulling ", token, middle, number, "%");
    HexIsToken(token);
    DigestIs(token, middle + number + "%");
    NotTheManifest(token, middle + number + "%");
    LastIsPercent(opening + number);
    ProgressOf(t, token, n);
  }

  lemma {:induction false} EmptyParts(a: string, b: string)
    ensures a + b + "" + ("%" + "") == a + b + "%"
  {
    assert a + b + "" == a + b && "%" + "" == "%";
  }

  lemma {:induction false} Regroup(a: string, b: string, d: string, e: string, f: string)
    ensures a + b + d + e + f == a + b + (d + e + f)
  {
  }

  lemma {:induction false} HexIsToken(token: string)
    requires forall c <- token :: IsHexDigit(c)
    ensures forall c <- token :: !IsBlank(c) && c != '.' && IsHex(c)
    ensures '%' !in token && (token != "" ==> token[0] != 'm')
  {
    assert token != "" ==> token[0] in token;
  }

  lemma {:induction false} LastIsPercent(s: string)
    ensures var t := s + "%"; t != "" && t[|t| - 1] == '%'
  {
  }

  lemma {:induction false} ProgressOf(t: string, token: string, n: nat)
    requires "pulling " <= t && !("pulling manifest" <= t) && t[0] == 'p' && t[|t| - 1] == '%'
    requires ExtractPercent(t) == Some(n) && ExtractLayerDigest(t) == Some(token)
    ensures Classify(t) == LayerProgress(Some(token), n)
  {
    NothingAround(t);
    KindOfLine(t, "", t, "");
  }

  lemma {:induction false} NothingAround(t: string)
    requires t != "" && !IsBlank(t[0]) && !IsBlank(t[|t| - 1])
    ensures Wraps(t, "", t, "")
  {
    assert "" + t + "" == t;
  }

  lemma {:induction false} OpeningHasNoPercent(token: string, middle: string)
    requires '%' !in token && '%' !in middle && middle != ""
    ensures var opening := "pulling " + token + middle;
      '%' !in opening && opening != "" && opening[|opening| - 1] == middle[|middle| - 1]
  {
  }

  lemma {:induction false} NotTheManifest(token: string, rest: string)
    requires token != "" && token[0] != 'm'
    ensures var t := "pulling " + token + rest; "pulling " <= t && t[0] == 'p' && !("pulling manifest" <= t)
  {
    var t := "pulling " + token + rest;
    assert t[8] == token[0] && "pulling manifest"[8] == 'm';
  }

  // ---------------------------------------------------------------------------------------------------
  // All lines
  // ---------------------------------------------------------------------------------------------------

  /** The message of the last line that is an error. */
  ghost predicate IsLastError(es: seq<PullEvent>, m: string) {
    exists k :: 0 <= k < |es| && es[k] == Error(m) && forall j :: k < j < |es| ==> !es[j].Error?
  }

  ghost predicate NoError(es: seq<PullEvent>) {
    forall k :: 0 <= k < |es| ==> !es[k].Error?
  }

  predicate Digests(e: PullEvent, d: string) {
    e.LayerProgress? && e.digest == Some(d)
  }

  /** The digest of the first line that carries one. */
  ghost predicate IsFirstDigest(es: seq<PullEvent>, d: string) {
    exists k :: 0 <= k < |es| && Digests(es[k], d) && forall j, e :: 0 <= j < k ==> !Digests(es[j], e)
  }

  ghost predicate NoDigest(es: seq<PullEvent>) {
    forall k, d :: 0 <= k < |es| ==> !Digests(es[k], d)
  }

  /** What a line counts for in percent; a success counts for all. */
  function Percent(e: PullEvent): nat {
    match e
    case LayerProgress(_, percent) => percent
    case Success => 100
    case _ => 0
  }

  ghost predicate IsGreatest(es: seq<PullEvent>, n: nat) {
    && (forall k :: 0 <= k < |es| ==> Percent(es[k]) <= n)
    && (n > 0 ==> exists k :: 0 <= k < |es| && Percent(es[k]) == n)
  }

  lemma {:induction false} TakeSnoc(p: Parser, es: seq<PullEvent>, from: nat)
    requires from < |es|
    ensures p.TakeAll(es, from) == p.TakeAll(es[..|es| - 1], from).Take(es[|es| - 1])
    decreases |es| - from
  {
    if from + 1 < |es| {
      TakeSnoc(p.Take(es[from]), es, from + 1);
    } else {
      assert p.TakeAll(es[..|es| - 1], from) == p;
      assert p.TakeAll(es, from) == p.Take(es[from]).TakeAll(es, from + 1);
    }
  }

  lemma {:induction false} ErrorExactly(es: seq<PullEvent>)
    ensures var p := FRESH.TakeAll(es);
      (p.errorMessage == None <==> NoError(es)) && (p.errorMessage.Some? ==> IsLastError(es, p.errorMessage.value))
    decreases |es|
  {
    if es != [] {
      var front, last := es[..|es| - 1], es[|es| - 1];
      TakeSnoc(FRESH, es, 0);
      ErrorExactly(front);
      assert front + [last] == es;
      ErrorSnoc(front, last);
    }
  }

  lemma {:induction false} ErrorSnoc(front: seq<PullEvent>, last: PullEvent)
    ensures NoError(front + [last]) <==> NoError(front) && !last.Error?
    ensures last.Error? ==> IsLastError(front + [last], last.message)
    ensures !last.Error? ==> forall m :: IsLastError(front, m) ==> IsLastError(front + [last], m)
  {
    var es := front + [last];
    assert es[|front|] == last && forall k :: 0 <= k < |front| ==> es[k] == front[k];
    if !last.Error? {
      forall m | IsLastError(front, m) ensures IsLastError(es, m)
      {
        var k :| 0 <= k < |front| && front[k] == Error(m) && forall j :: k < j < |front| ==> !front[j].Error?;
        assert es[k] == Error(m);
      }
    }
  }

  lemma {:induction false} DigestExactly(es: seq<PullEvent>)
    ensures var p := FRESH.TakeAll(es);
      (p.layerDigest == None <==> NoDigest(es)) && (p.layerDigest.Some? ==> IsFirstDigest(es, p.layerDigest.value))
    decreases |es|
  {
    if es != [] {
      var front, last := es[..|es| - 1], es[|es| - 1];
      TakeSnoc(FRESH, es, 0);
      DigestExactly(front);
      assert front + [last] == es;
      DigestSnoc(front, last);
      NoDigestSnoc(front, last);
    }
  }

  lemma {:induction false} DigestSnoc(front: seq<PullEvent>, last: PullEvent)
    ensures forall d :: IsFirstDigest(front, d) || (NoDigest(front) && Digests(last, d)) ==>
      IsFirstDigest(front + [last], d)
  {
    var es := front + [last];
    assert es[|front|] == last && forall k :: 0 <= k < |front| ==> es[k] == front[k];
    forall d | IsFirstDigest(front, d) || (NoDigest(front) && Digests(last, d)) ensures IsFirstDigest(es, d)
    {
      if IsFirstDigest(front, d) {
        var k :| 0 <= k < |front| && Digests(front[k], d) && forall j, e :: 0 <= j < k ==> !Digests(front[j], e);
        assert Digests(es[k], d);
      } else {
        assert Digests(es[|front|], d);
      }
    }
  }

  lemma {:induction false} NoDigestSnoc(front: seq<PullEvent>, last: PullEvent)
    ensures NoDigest(front + [last]) <==> NoDigest(front) && !(last.LayerProgress? && last.digest.Some?)
  {
    var es := front + [last];
    assert es[|front|] == last && forall k :: 0 <= k < |front| ==> es[k] == front[k];
    if last.LayerProgress? && last.digest.Some? {
      assert Digests(es[|front|], last.digest.value);
    }
    if NoDigest(es) {
      forall k, d | 0 <= k < |front| ensures !Digests(front[k], d)
      {
        assert !Digests(es[k], d);
      }
    }
  }

  lemma {:induction false} MarksExactly(es: seq<PullEvent>)
    ensures var p := FRESH.TakeAll(es);
      && (p.didSucceed <==> exists k :: 0 <= k < |es| && es[k].Success?)
      && (p.manifestVerified <==> exists k :: 0 <= k < |es| && es[k].Verifying?)
      && IsGreatest(es, p.maxPercent)
    decreases |es|
  {
    if es != [] {
      var front, last := es[..|es| - 1], es[|es| - 1];
      TakeSnoc(FRESH, es, 0);
      MarksExactly(front);
      assert front + [last] == es;
      assert es[|front|] == last && forall k :: 0 <= k < |front| ==> es[k] == front[k];
      GreatestSnoc(front, last, FRESH.TakeAll(front).maxPercent);
    }
  }

  lemma {:induction false} GreatestSnoc(front: seq<PullEvent>, last: PullEvent, n: nat)
    requires IsGreatest(front, n)
    ensures IsGreatest(front + [last], if Percent(last) >= n then Percent(last) else n)
  {
    var es := front + [last];
    assert es[|front|] == last;
    if n > 0 {
      var k :| 0 <= k < |front| && Percent(front[k]) == n;
      assert Percent(es[k]) == n;
    }
  }

  /** What the lines show, in this order: the last error, a success with the first digest, progress, or nothing yet. */
  lemma {:induction false} ShownExactly(lines: seq<string>)
    ensures var es, state := Events(lines), FRESH.FeedAll(lines).State();
      && (state.Failed? <==> !NoError(es)) && (state.Failed? ==> IsLastError(es, state.message))
      && (state.Pulled? <==> NoError(es) && exists k :: 0 <= k < |es| && es[k].Success?)
      && (state.Pulled? ==>
            if state.digest.Some? then IsFirstDigest(es, state.digest.value) else NoDigest(es))
      && (state.Pulling? ==>
            exists n :: IsGreatest(es, n) && state.progress == if n < 100 then n as real / 100.0 else 1.0)
  {
    ErrorExactly(Events(lines));
    DigestExactly(Events(lines));
    MarksExactly(Events(lines));
  }
}

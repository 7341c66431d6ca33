/** RouterOS text output: as-value records and uptimes (subscriber/mikrotik.go). */
module RouterOS {
  import opened Options
  import opened Words
  import opened Text

  predicate IsQuote(c: char) {
    c == '"'
  }

  // ---- as-value records ----------------------------------------------------------------------------

  /** One `k=v`, if there is one: blanks around key and value and quotes around the value are dropped. */
  function Field(part: string): Option<(string, string)> {
    var kv := TrimSpace(part);
    if kv == "" then None
    else
      var eq := IndexFrom(kv, "=", 0);
      if eq == 0 || eq > |kv| then None
      else Some((TrimSpace(kv[..eq]), Trim(TrimSpace(kv[eq + 1..]), IsQuote)))
  }

  function RecordOf(parts: seq<string>): map<string, string> {
    if parts == [] then map[]
    else
      var rec := RecordOf(parts[..|parts| - 1]);
      match Field(parts[|parts| - 1])
      case None => rec
      case Some((k, v)) => rec[k := v]
  }

  function RecordsOf(lines: seq<string>): seq<map<string, string>> {
    if lines == [] then []
    else
      var before := RecordsOf(lines[..|lines| - 1]);
      var line := TrimSpace(lines[|lines| - 1]);
      var rec := RecordOf(Split(line, ";"));
      if line == "" || rec == map[] then before else before + [rec]
  }

  function RecordsIn(chunks: seq<string>): seq<map<string, string>> {
    if chunks == [] then []
    else RecordsIn(chunks[..|chunks| - 1]) + RecordsOf(ScanLines(chunks[|chunks| - 1]))
  }

  method ParseAsValueLine(line: string) returns (rec: map<string, string>)
    ensures rec == RecordOf(Split(line, ";"))
  {
    hide TrimSpace, Trim;
    rec := map[];
    var parts := Split(line, ";");
    for i := 0 to |parts|
      invariant rec == RecordOf(parts[..i])
    {
      assert parts[..i + 1][..i] == parts[..i];
      var kv := TrimSpace(parts[i]);
      if kv == "" {
        continue;
      }
      var eq := IndexFrom(kv, "=", 0);
      if eq == 0 || eq > |kv| {
        continue;
      }
      var k := TrimSpace(kv[..eq]);
      var v := TrimSpace(kv[eq + 1..]);
      v := Trim(v, IsQuote);
      rec := rec[k := v];
    }
    assert parts[..|parts|] == parts;
  }

  method ParseAsValue(s: string) returns (out: seq<map<string, string>>)
    ensures out == RecordsIn(Split(s, ";;;"))
  {
    hide TrimSpace, RecordOf, ScanLines, Split;
    out := [];
    var chunks := Split(s, ";;;");
    for i := 0 to |chunks|
      invariant out == RecordsIn(chunks[..i])
    {
      assert chunks[..i + 1][..i] == chunks[..i];
      var lines := ScanLines(chunks[i]);
      ghost var before := out;
      for j := 0 to |lines|
        invariant out == before + RecordsOf(lines[..j])
      {
        assert lines[..j + 1][..j] == lines[..j];
        var line := TrimSpace(lines[j]);
        if line == "" {
          continue;
        }
        var rec := ParseAsValueLine(line);
        if rec != map[] {
          out := out + [rec];
        }
      }
      assert lines[..|lines|] == lines;
    }
    assert chunks[..|chunks|] == chunks;
  }

  // ---- Printing and reading back -------------------------------------------------------------------

  type Pairs = seq<(string, string)>

  function PairText(p: (string, string)): string {
    p.0 + "=" + p.1
  }

  function Texts(pairs: Pairs): (ts: seq<string>)
    ensures |ts| == |pairs|
  {
    seq(|pairs|, i requires 0 <= i < |pairs| => PairText(pairs[i]))
  }

  function LineText(pairs: Pairs): string {
    Join(Texts(pairs), ";")
  }

  function ToMap(pairs: Pairs): map<string, string> {
    if pairs == [] then map[] else ToMap(pairs[..|pairs| - 1])[pairs[|pairs| - 1].0 := pairs[|pairs| - 1].1]
  }

  /** A field RouterOS prints as it is: no separators in it, nothing the parser would trim. */
  ghost predicate CleanPair(p: (string, string)) {
    && p.0 != "" && '=' !in p.0
    && (forall c :: c in p.0 || c in p.1 ==> c != ';' && c != '\n')
    && Bare(p.0, IsSpace) && Bare(p.1, IsSpace) && Bare(p.1, IsQuote)
  }

  ghost predicate CleanRecord(pairs: Pairs) {
    pairs != [] && (forall i :: 0 <= i < |pairs| ==> CleanPair(pairs[i])) && |LineText(pairs)| < MAX_LINE
  }

  lemma PairIsBare(p: (string, string))
    requires CleanPair(p)
    ensures var t := PairText(p);
            t != "" && Bare(t, IsSpace) && t[|t| - 1] != '\r'
            && (forall c :: c in t ==> c != ';' && c != '\n')
  {
    var t := PairText(p);
    assert t[|p.0|] == '=';
    assert p.1 != "" ==> t[|t| - 1] == p.1[|p.1| - 1];
    assert t[0] == p.0[0];
    forall c | c in t ensures c != ';' && c != '\n' {
      assert c in p.0 || c == '=' || c in p.1;
    }
  }

  lemma FieldBack(p: (string, string))
    requires CleanPair(p)
    ensures Field(PairText(p)) == Some(p)
  {
    var t := PairText(p);
    PairIsBare(p);
    BareIsTrimmed(t, IsSpace);
    BareIsTrimmed(p.0, IsSpace);
    BareIsTrimmed(p.1, IsSpace);
    BareIsTrimmed(p.1, IsQuote);
    hide Trim, Bare;
    assert Apart(p.0, "=") by {
      forall j: nat | j < |p.0| ensures !StandsAt(p.0 + "=", j, "=") {
        assert (p.0 + "=")[j..j + 1] == [p.0[j]];
        assert p.0[j] in p.0;
      }
    }
    FirstSeparator(p.0, "=", p.1);
    assert t[..|p.0|] == p.0 && t[|p.0| + 1..] == p.1;
  }

  /** Blanks around key, value and field, and quotes around the value, make no difference. */
  lemma PaddedFieldBack(p: (string, string), blanks: (string, string, string, string), quotes: (string, string))
    requires CleanPair(p) && forall c :: c in quotes.0 || c in quotes.1 ==> c == '"'
    requires AllOf(blanks.0, IsSpace) && AllOf(blanks.1, IsSpace)
    requires AllOf(blanks.2, IsSpace) && AllOf(blanks.3, IsSpace)
    ensures Field(blanks.0 + p.0 + blanks.1 + "=" + blanks.2 + quotes.0 + p.1 + quotes.1 + blanks.3) == Some(p)
  {
    AllQuotes(quotes.0);
    AllQuotes(quotes.1);
    hide Trim, Field;
    var value := quotes.0 + p.1 + quotes.1;
    var key, rest := p.0 + blanks.1, blanks.2 + value;
    QuotedIsBare(quotes.0, p.1, quotes.1);
    BlankKeyIsApart(p.0, blanks.1);
    PaddingIsTrimmed("", p.0, blanks.1, IsSpace);
    assert "" + p.0 + blanks.1 == key;
    PaddingIsTrimmed(quotes.0, p.1, quotes.1, IsQuote);
    hide IsSpace, IsQuote, Apart, AllOf;
    if value == "" {
      PaddingIsTrimmed("", "", "", IsSpace);
      assert "" + "" + "" == "";
      FieldOfParts(blanks.0, key, "", blanks.2 + blanks.3);
      Rejoined(blanks.0, key, "", blanks.2 + blanks.3);
      assert blanks.2 + value + blanks.3 == "" + (blanks.2 + blanks.3);
    } else {
      PaddingIsTrimmed(blanks.2, value, "", IsSpace);
      assert blanks.2 + value + "" == rest;
      assert rest[|rest| - 1] == value[|value| - 1];
      FieldOfParts(blanks.0, key, rest, blanks.3);
      Rejoined(blanks.0, key, rest, blanks.3);
    }
    Reparted(p, blanks, quotes);
  }

  /** A field whose key and rest are known up to blanks. */
  lemma FieldOfParts(before: string, key: string, rest: string, after: string)
    requires AllOf(before, IsSpace) && AllOf(after, IsSpace)
    requires key != "" && !IsSpace(key[0]) && Apart(key, "=") && (rest == "" || !IsSpace(rest[|rest| - 1]))
    ensures Field(before + (key + "=" + rest) + after) == Some((TrimSpace(key), Trim(TrimSpace(rest), IsQuote)))
  {
    hide Trim, Apart;
    var kv := key + "=" + rest;
    assert kv[|key|] == '=' && kv[0] == key[0] && (rest != "" ==> kv[|kv| - 1] == rest[|rest| - 1]);
    assert rest == "" ==> kv[|kv| - 1] == '=';
    PaddingIsTrimmed(before, kv, after, IsSpace);
    FirstSeparator(key, "=", rest);
    assert kv[..|key|] == key && kv[|key| + 1..] == rest;
  }

  lemma Rejoined(before: string, key: string, rest: string, after: string)
    ensures before + (key + "=" + rest) + after == before + key + "=" + (rest + after)
  {
  }

  lemma Reparted(p: (string, string), blanks: (string, string, string, string), quotes: (string, string))
    ensures blanks.0 + p.0 + blanks.1 + "=" + blanks.2 + quotes.0 + p.1 + quotes.1 + blanks.3
         == blanks.0 + (p.0 + blanks.1) + "=" + (blanks.2 + (quotes.0 + p.1 + quotes.1) + blanks.3)
  {
    var end := quotes.0 + p.1 + quotes.1;
    assert blanks.2 + quotes.0 + p.1 + quotes.1 == blanks.2 + end;
    assert blanks.0 + p.0 + blanks.1 == blanks.0 + (p.0 + blanks.1);
  }

  lemma AllQuotes(s: string)
    requires forall c :: c in s ==> c == '"'
    ensures AllOf(s, IsQuote)
  {
    forall i | 0 <= i < |s| ensures IsQuote(s[i]) {
      assert s[i] in s;
    }
  }

  lemma QuotedIsBare(left: string, s: string, right: string)
    requires AllOf(left, IsQuote) && AllOf(right, IsQuote) && Bare(s, IsSpace)
    ensures Bare(left + s + right, IsSpace)
  {
  }

  lemma BlankKeyIsApart(key: string, blanks: string)
    requires '=' !in key && AllOf(blanks, IsSpace)
    ensures Apart(key + blanks, "=")
  {
    assert '=' !in key + blanks;
    NotInIsApart(key + blanks, '=');
  }

  /** A part is a field exactly if, blanks aside, it has an equals sign that is not its first character. */
  lemma FieldExactly(part: string)
    ensures Field(part).Some? <==> var kv := TrimSpace(part); '=' in kv && kv[0] != '='
  {
    hide Trim;
    var kv := TrimSpace(part);
    var eq := IndexFrom(kv, "=", 0);
    if '=' in kv {
      var i :| 0 <= i < |kv| && kv[i] == '=';
      assert kv[i..i + 1] == "=";
      assert StandsAt(kv, i, "=") && StandsAt(kv, 0, "=") == (kv[..1] == "=");
    }
    if eq <= |kv| {
      assert kv[eq..eq + 1] == "=";
      assert kv[eq] == '=';
    }
  }

  lemma NotInIsApart(p: string, c: char)
    requires c !in p
    ensures Apart(p, [c])
  {
    forall j: nat | j < |p| ensures !StandsAt(p + [c], j, [c]) {
      assert (p + [c])[j..j + 1] == [p[j]];
      assert p[j] in p;
    }
  }

  lemma {:induction false} FieldsBack(pairs: Pairs)
    requires forall i :: 0 <= i < |pairs| ==> CleanPair(pairs[i])
    ensures RecordOf(Texts(pairs)) == ToMap(pairs)
  {
    hide Field, CleanPair;
    if pairs != [] {
      var n := |pairs| - 1;
      FieldsBack(pairs[..n]);
      FieldBack(pairs[n]);
      assert Texts(pairs)[..n] == Texts(pairs[..n]);
    }
  }

  lemma LineBack(pairs: Pairs)
    requires CleanRecord(pairs)
    ensures RecordOf(Split(LineText(pairs), ";")) == ToMap(pairs)
  {
    var ts := Texts(pairs);
    forall i | 0 <= i < |ts| ensures Apart(ts[i], ";") {
      PairIsBare(pairs[i]);
      NotInIsApart(ts[i], ';');
    }
    hide CleanPair, Apart;
    SplitJoin(ts, ";");
    FieldsBack(pairs);
  }

  // ---- The shape of printed lines ------------------------------------------------------------------

  /** Every semicolon is followed by something that is not one. */
  predicate NoPairs(s: string) {
    forall j :: 0 <= j < |s| && s[j] == ';' ==> j + 1 < |s| && s[j + 1] != ';'
  }

  lemma NoPairsIsApart(s: string)
    requires NoPairs(s)
    ensures Apart(s, ";;;")
  {
    var sep := ";;;";
    var t := s + sep;
    assert sep[0] == ';' && sep[1] == ';';
    forall j: nat | j < |s| ensures !StandsAt(t, j, sep) {
      assert t[j..j + |sep|][0] == s[j];
      if s[j] == ';' {
        assert t[j..j + |sep|][1] == s[j + 1];
      }
    }
  }

  /** A printed line, as the parsers need it. */
  ghost predicate PrintedLine(s: string) {
    s != "" && s[0] != ';' && '\n' !in s && Bare(s, IsSpace) && NoPairs(s)
  }

  lemma NoPairsJoined(p: string, sep: string, tail: string)
    requires NoPairs(p) && NoPairs(tail) && tail != "" && tail[0] != ';'
    requires sep == "\n" || (sep == ";" && (p == "" || p[|p| - 1] != ';'))
    ensures NoPairs(p + sep + tail)
  {
    var s := p + sep + tail;
    forall j | 0 <= j < |s| && s[j] == ';' ensures j + 1 < |s| && s[j + 1] != ';' {
      if j < |p| {
        assert p[j] == ';';
      } else if j > |p| {
        assert tail[j - |p| - 1] == ';';
        assert s[j + 1] == tail[j - |p|];
      } else {
        assert s[j + 1] == tail[0];
      }
    }
  }

  lemma PlainIsPrinted(t: string)
    requires t != "" && Bare(t, IsSpace) && forall c :: c in t ==> c != ';' && c != '\n'
    ensures PrintedLine(t) && t[|t| - 1] != ';'
  {
    hide IsSpace;
    forall j | 0 <= j < |t| ensures t[j] != ';' {
      assert t[j] in t;
    }
  }

  lemma PrintedJoined(p: string, tail: string)
    requires PrintedLine(p) && p[|p| - 1] != ';' && PrintedLine(tail)
    ensures PrintedLine(p + ";" + tail)
  {
    hide IsSpace;
    NoPairsJoined(p, ";", tail);
    var s := p + ";" + tail;
    assert s[0] == p[0] && s[|s| - 1] == tail[|tail| - 1];
    hide NoPairs;
  }

  lemma {:induction false} PairsArePrinted(ts: seq<string>)
    requires ts != []
    requires forall i :: 0 <= i < |ts| ==>
               ts[i] != "" && Bare(ts[i], IsSpace) && forall c :: c in ts[i] ==> c != ';' && c != '\n'
    ensures PrintedLine(Join(ts, ";"))
    decreases |ts|
  {
    PlainIsPrinted(ts[0]);
    hide IsSpace, PrintedLine;
    if |ts| > 1 {
      PairsArePrinted(ts[1..]);
      PrintedJoined(ts[0], Join(ts[1..], ";"));
    }
  }

  lemma LineIsPrinted(pairs: Pairs)
    requires CleanRecord(pairs)
    ensures PrintedLine(LineText(pairs)) && PlainLine(LineText(pairs)) && Apart(LineText(pairs), ";;;")
  {
    var ts := Texts(pairs);
    forall i | 0 <= i < |ts|
      ensures ts[i] != "" && Bare(ts[i], IsSpace) && forall c :: c in ts[i] ==> c != ';' && c != '\n'
    {
      PairIsBare(pairs[i]);
    }
    PairsArePrinted(ts);
    NoPairsIsApart(LineText(pairs));
    NotInIsApart(LineText(pairs), '\n');
    assert IsSpace('\r');
    hide CleanPair, Apart, NoPairs;
  }

  // ---- Whole outputs -------------------------------------------------------------------------------

  function LineTexts(recs: seq<Pairs>): (ls: seq<string>)
    ensures |ls| == |recs|
  {
    seq(|recs|, i requires 0 <= i < |recs| => LineText(recs[i]))
  }

  function Maps(recs: seq<Pairs>): (ms: seq<map<string, string>>)
    ensures |ms| == |recs|
  {
    seq(|recs|, i requires 0 <= i < |recs| => ToMap(recs[i]))
  }

  lemma OneMoreLine(lines: seq<string>, line: string)
    requires line != "" && TrimSpace(line) == line && RecordOf(Split(line, ";")) != map[]
    ensures RecordsOf(lines + [line]) == RecordsOf(lines) + [RecordOf(Split(line, ";"))]
  {
    hide TrimSpace, RecordOf, Split;
    assert (lines + [line])[..|lines|] == lines;
  }

  lemma CleanRecordBack(pairs: Pairs)
    requires CleanRecord(pairs)
    ensures var line := LineText(pairs);
            line != "" && TrimSpace(line) == line && RecordOf(Split(line, ";")) == ToMap(pairs) != map[]
  {
    LineBack(pairs);
    LineIsPrinted(pairs);
    BareIsTrimmed(LineText(pairs), IsSpace);
    assert pairs[|pairs| - 1].0 in ToMap(pairs);
    hide RecordOf, Split, LineText, IsSpace, Trim;
  }

  lemma {:induction false} LinesBack(recs: seq<Pairs>)
    requires forall i :: 0 <= i < |recs| ==> CleanRecord(recs[i])
    ensures RecordsOf(LineTexts(recs)) == Maps(recs)
  {
    hide RecordOf, TrimSpace, LineText, ToMap, CleanRecord, Split;
    if recs != [] {
      var n := |recs| - 1;
      LinesBack(recs[..n]);
      CleanRecordBack(recs[n]);
      OneMoreLine(LineTexts(recs[..n]), LineText(recs[n]));
      hide RecordsOf;
      assert LineTexts(recs) == LineTexts(recs[..n]) + [LineText(recs[n])];
      assert Maps(recs) == Maps(recs[..n]) + [ToMap(recs[n])];
    }
  }

  lemma {:induction false} NoPairsInText(lines: seq<string>)
    requires lines != [] && forall i :: 0 <= i < |lines| ==> PrintedLine(lines[i])
    ensures NoPairs(Join(lines, "\n")) && Join(lines, "\n") != "" && Join(lines, "\n")[0] != ';'
    decreases |lines|
  {
    hide NoPairs, Bare;
    assert PrintedLine(lines[0]);
    if |lines| > 1 {
      NoPairsInText(lines[1..]);
      NoPairsJoined(lines[0], "\n", Join(lines[1..], "\n"));
    }
  }

  /** One record per line: printing and parsing returns the records. */
  lemma LineLayoutReadsBack(recs: seq<Pairs>)
    requires recs != [] && forall i :: 0 <= i < |recs| ==> CleanRecord(recs[i])
    ensures RecordsIn(Split(Join(LineTexts(recs), "\n"), ";;;")) == Maps(recs)
  {
    var lines := LineTexts(recs);
    forall i | 0 <= i < |lines| ensures PrintedLine(lines[i]) && PlainLine(lines[i]) {
      LineIsPrinted(recs[i]);
    }
    hide CleanRecord, PrintedLine, PlainLine, Apart, LineTexts;
    var text := Join(lines, "\n");
    NoPairsInText(lines);
    NoPairsIsApart(text);
    SplitJoin([text], ";;;");
    ScanJoin(lines);
    LinesBack(recs);
    assert Split(text, ";;;") == [text];
    OneChunk(text);
  }

  lemma OneChunk(chunk: string)
    ensures RecordsIn([chunk]) == RecordsOf(ScanLines(chunk))
  {
    assert [chunk][..0] == [];
  }

  lemma OneMoreChunk(chunks: seq<string>, chunk: string)
    ensures RecordsIn(chunks + [chunk]) == RecordsIn(chunks) + RecordsOf(ScanLines(chunk))
  {
    hide RecordsOf, ScanLines;
    assert (chunks + [chunk])[..|chunks|] == chunks;
  }

  lemma RecordIsAChunk(pairs: Pairs)
    requires CleanRecord(pairs)
    ensures RecordsOf(ScanLines(LineText(pairs))) == [ToMap(pairs)]
  {
    hide CleanRecord, LineText, ToMap, RecordsOf, ScanLines;
    LineIsPrinted(pairs);
    ScanJoin([LineText(pairs)]);
    LinesBack([pairs]);
    assert LineTexts([pairs]) == [LineText(pairs)];
    assert Maps([pairs]) == [ToMap(pairs)];
  }

  lemma {:induction false} ChunksBack(recs: seq<Pairs>)
    requires forall i :: 0 <= i < |recs| ==> CleanRecord(recs[i])
    ensures RecordsIn(LineTexts(recs)) == Maps(recs)
  {
    hide CleanRecord, LineText, ToMap, RecordsOf, ScanLines;
    if recs != [] {
      var n := |recs| - 1;
      ChunksBack(recs[..n]);
      RecordIsAChunk(recs[n]);
      OneMoreChunk(LineTexts(recs[..n]), LineText(recs[n]));
      hide RecordsIn;
      assert LineTexts(recs) == LineTexts(recs[..n]) + [LineText(recs[n])];
      assert Maps(recs) == Maps(recs[..n]) + [ToMap(recs[n])];
    }
  }

  /** All records on one line, separated by `;;;`: printing and parsing returns the same records. */
  lemma OneLineLayoutReadsBack(recs: seq<Pairs>)
    requires recs != [] && forall i :: 0 <= i < |recs| ==> CleanRecord(recs[i])
    ensures RecordsIn(Split(Join(LineTexts(recs), ";;;"), ";;;")) == Maps(recs)
  {
    var lines := LineTexts(recs);
    forall i | 0 <= i < |lines| ensures Apart(lines[i], ";;;") {
      LineIsPrinted(recs[i]);
    }
    hide CleanRecord, Apart;
    SplitJoin(lines, ";;;");
    ChunksBack(recs);
    hide *;
  }

  // ---- Uptimes -------------------------------------------------------------------------------------

  /** The value an int64 keeps of an unbounded result. */
  function Int64(x: int): int {
    (x + TWO_63) % (2 * TWO_63) - TWO_63
  }

  function UnitOf(c: char): (size: int)
    ensures 0 <= size
  {
    match c
    case 'w' => 7 * 24 * 3600 * SECOND
    case 'd' => 24 * 3600 * SECOND
    case 'h' => 3600 * SECOND
    case 'm' => 60 * SECOND
    case 's' => SECOND
    case _ => 0
  }

  predicate IsDigit(c: char) {
    '0' <= c <= '9'
  }

  predicate IsUnit(c: char) {
    c == 'w' || c == 'd' || c == 'h' || c == 'm' || c == 's'
  }

  /** The duration and the pending number after reading a text; none after a character that is neither digit nor
      unit. */
  function Reading(s: string): Option<(int, int)> {
    if s == "" then Some((0, 0))
    else
      match Reading(s[..|s| - 1])
      case None => None
      case Some((d, num)) =>
        var c := s[|s| - 1];
        if IsDigit(c) then Some((d, Int64(num * 10 + (c as int - '0' as int))))
        else if IsUnit(c) then Some((Int64(d + Int64(num * UnitOf(c))), 0))
        else None
  }

  /** The start of a connection, `None` standing for the zero time. */
  function Started(now: int, uptime: string): Option<int> {
    match Reading(uptime)
    case None => None
    case Some((d, _)) => if d == 0 then None else Some(now + Int64(-d))
  }

  lemma {:induction false} ReadingStops(s: string, i: nat)
    requires i <= |s| && Reading(s[..i]).None?
    ensures Reading(s).None?
    decreases |s|
  {
    if i == |s| {
      assert s[..i] == s;
    } else {
      assert s[..|s| - 1][..i] == s[..i];
      ReadingStops(s[..|s| - 1], i);
    }
  }

  method SubtractUptime(now: int, uptime: string) returns (start: Option<int>)
    ensures start == Started(now, uptime)
  {
    hide Int64;
    if uptime == "" {
      return None;
    }
    var d, num := 0, 0;
    for i := 0 to |uptime|
      invariant Reading(uptime[..i]) == Some((d, num))
    {
      assert uptime[..i + 1][..i] == uptime[..i];
      var c := uptime[i];
      if IsDigit(c) {
        num := Int64(num * 10 + (c as int - '0' as int));
      } else if IsUnit(c) {
        d := Int64(d + Int64(num * UnitOf(c)));
        num := 0;
      } else {
        ReadingStops(uptime, i + 1);
        return None;
      }
    }
    assert uptime[..|uptime|] == uptime;
    if d == 0 {
      return None;
    }
    return Some(now + Int64(-d));
  }

  /** Decimal, without leading zeros. */
  function Decimal(n: nat): string {
    if n < 10 then [('0' as int + n) as char] else Decimal(n / 10) + [('0' as int + n % 10) as char]
  }

  type Parts = seq<(nat, char)>

  function UptimeText(parts: Parts): string {
    if parts == [] then ""
    else
      var last := parts[|parts| - 1];
      UptimeText(parts[..|parts| - 1]) + Decimal(last.0) + [last.1]
  }

  /** The duration that numbered units add up to. */
  function TotalOf(parts: Parts): (total: int)
    ensures 0 <= total
  {
    if parts == [] then 0 else TotalOf(parts[..|parts| - 1]) + Amount(parts[|parts| - 1])
  }

  function Amount(p: (nat, char)): (amount: int)
    ensures 0 <= amount
  {
    p.0 * UnitOf(p.1)
  }

  lemma Int64Small(x: int)
    requires -TWO_63 <= x < TWO_63
    ensures Int64(x) == x
  {
  }

  lemma DigitReads(s: string, d: int, num: int, digit: int)
    requires 0 <= num && 0 <= digit && Reading(s) == Some((d, num)) && digit < 10 && num * 10 + digit < TWO_63
    ensures Reading(s + [('0' as int + digit) as char]) == Some((d, num * 10 + digit))
  {
    hide Int64;
    var c := ('0' as int + digit) as char;
    var longer := s + [c];
    assert longer[..|longer| - 1] == s && longer[|longer| - 1] == c;
    assert IsDigit(c) && c as int - '0' as int == digit;
    Int64Small(num * 10 + digit);
  }

  lemma {:induction false} DecimalReads(s: string, d: int, n: nat)
    requires Reading(s) == Some((d, 0)) && n < TWO_63
    ensures Reading(s + Decimal(n)) == Some((d, n))
    decreases n
  {
    hide Reading;
    if n < 10 {
      DigitReads(s, d, 0, n);
    } else {
      DecimalReads(s, d, n / 10);
      DigitReads(s + Decimal(n / 10), d, n / 10, n % 10);
      assert s + Decimal(n) == s + Decimal(n / 10) + [('0' as int + n % 10) as char];
    }
  }

  lemma UnitReads(s: string, d: int, num: int, c: char)
    requires 0 <= d && 0 <= num && Reading(s) == Some((d, num)) && IsUnit(c) && d + Amount((num, c)) < TWO_63
    ensures Reading(s + [c]) == Some((d + Amount((num, c)), 0))
  {
    assert (s + [c])[..|s|] == s;
    Int64Small(num * UnitOf(c));
    Int64Small(d + num * UnitOf(c));
    hide Int64, UnitOf;
  }

  lemma NumberBelowAmount(p: (nat, char))
    requires IsUnit(p.1)
    ensures p.0 <= Amount(p)
  {
  }

  /** A text of numbered units reads as their total, as long as that fits an int64 of nanoseconds. */
  lemma {:induction false} UptimeReads(parts: Parts)
    requires forall i :: 0 <= i < |parts| ==> IsUnit(parts[i].1)
    requires TotalOf(parts) < TWO_63
    ensures Reading(UptimeText(parts)) == Some((TotalOf(parts), 0))
  {
    hide Reading, Amount;
    if parts == [] {
      NothingRead();
    } else {
      var n := |parts| - 1;
      var p := parts[n];
      UptimeReads(parts[..n]);
      NumberBelowAmount(p);
      DecimalReads(UptimeText(parts[..n]), TotalOf(parts[..n]), p.0);
      UnitReads(UptimeText(parts[..n]) + Decimal(p.0), TotalOf(parts[..n]), p.0, p.1);
    }
  }

  lemma NothingRead()
    ensures Reading("") == Some((0, 0))
  {
  }

  /** Printing any positive duration in numbered units and parsing it subtracts exactly that duration. */
  lemma UptimeSubtracts(now: int, parts: Parts)
    requires forall i :: 0 <= i < |parts| ==> IsUnit(parts[i].1)
    requires 0 < TotalOf(parts) < TWO_63
    ensures Started(now, UptimeText(parts)) == Some(now - TotalOf(parts))
  {
    hide Reading, UptimeText, TotalOf, UnitOf, Amount, Int64;
    UptimeReads(parts);
    Int64Small(-TotalOf(parts));
  }

  // ---- The way RouterOS writes a duration ----------------------------------------------------------

  /** A unit is left out where it counts nothing. */
  function Part(n: nat, c: char): Parts {
    if n == 0 then [] else [(n, c)]
  }

  function PartsOf(seconds: nat): Parts {
    Part(seconds / 604800, 'w') + Part(seconds / 86400 % 7, 'd') + Part(seconds / 3600 % 24, 'h')
    + Part(seconds / 60 % 60, 'm') + Part(seconds % 60, 's')
  }

  predicate AllUnits(parts: Parts) {
    forall i :: 0 <= i < |parts| ==> IsUnit(parts[i].1)
  }

  lemma PartAdds(parts: Parts, n: nat, c: char)
    requires AllUnits(parts) && IsUnit(c)
    ensures AllUnits(parts + Part(n, c)) && TotalOf(parts + Part(n, c)) == TotalOf(parts) + n * UnitOf(c)
  {
    hide UnitOf;
    var longer := parts + Part(n, c);
    if n == 0 {
      assert longer == parts;
    } else {
      assert longer[..|longer| - 1] == parts && longer[|longer| - 1] == (n, c);
    }
  }

  lemma SecondsInUnits(seconds: nat)
    ensures seconds / 604800 * 604800 + seconds / 86400 % 7 * 86400 + seconds / 3600 % 24 * 3600
            + seconds / 60 % 60 * 60 + seconds % 60 == seconds
  {
    var m := seconds / 60;
    var h := seconds / 3600;
    var d := seconds / 86400;
    assert m / 60 == h && h / 24 == d && d / 7 == seconds / 604800;
  }

  lemma NoParts()
    ensures AllUnits([]) && TotalOf([]) == 0
  {
  }

  lemma PartsTotal(seconds: nat)
    ensures AllUnits(PartsOf(seconds)) && TotalOf(PartsOf(seconds)) == seconds * SECOND
  {
    hide AllUnits, TotalOf, Part;
    NoParts();
    var w := Part(seconds / 604800, 'w');
    var d := w + Part(seconds / 86400 % 7, 'd');
    var h := d + Part(seconds / 3600 % 24, 'h');
    var m := h + Part(seconds / 60 % 60, 'm');
    assert [] + w == w;
    PartAdds([], seconds / 604800, 'w');
    PartAdds(w, seconds / 86400 % 7, 'd');
    PartAdds(d, seconds / 3600 % 24, 'h');
    PartAdds(h, seconds / 60 % 60, 'm');
    PartAdds(m, seconds % 60, 's');
    SecondsInUnits(seconds);
  }

  /** Any positive whole number of seconds whose nanoseconds fit an int64, written in weeks, days, hours, minutes and
      seconds, is subtracted exactly; zero, written as nothing, gives the zero time. */
  lemma WrittenUptimeSubtracts(now: int, seconds: nat)
    requires seconds * SECOND < TWO_63
    ensures Started(now, UptimeText(PartsOf(seconds))) == if seconds == 0 then None else Some(now - seconds * SECOND)
  {
    hide Reading, UptimeText, TotalOf, UnitOf, Amount, Int64, PartsOf;
    PartsTotal(seconds);
    UptimeReads(PartsOf(seconds));
    Int64Small(-(seconds * SECOND));
  }
}

/** MarkdownV2 escaping of Telegram messages (alert/telegram/format.go, mdv2Escape). */
module Markdown {
  const BACKSLASH: char := '\\'

  const SPECIAL: seq<char> := ['_', '*', '[', ']', '(', ')', '~', '`', '>', '#', '+', '-', '=', '|', '{', '}', '.', '!']

  /** `strings.ReplaceAll(s, c, "\\" + c)`. */
  function ReplaceAll(s: string, c: char): string {
    if s == "" then ""
    else (if s[0] == c then [BACKSLASH, c] else [s[0]]) + ReplaceAll(s[1..], c)
  }

  /** One simultaneous pass: every character of `marks` gets a backslash. */
  function Escaped(s: string, marks: seq<char>): string {
    if s == "" then ""
    else (if s[0] in marks then [BACKSLASH, s[0]] else [s[0]]) + Escaped(s[1..], marks)
  }

  lemma {:induction false} ReplaceAllConcat(a: string, b: string, c: char)
    ensures ReplaceAll(a + b, c) == ReplaceAll(a, c) + ReplaceAll(b, c)
    decreases |a|
  {
    if a == "" {
      assert a + b == b;
    } else {
      ReplaceAllConcat(a[1..], b, c);
      assert (a + b)[1..] == a[1..] + b;
    }
  }

  lemma {:induction false} EscapedByNone(s: string)
    ensures Escaped(s, []) == s
  {
    if s != "" {
      EscapedByNone(s[1..]);
    }
  }

  /** A further pass only touches its own character: the backslashes put in before are not special. */
  lemma {:induction false} OneMorePass(s: string, marks: seq<char>, c: char)
    requires c !in marks && c != BACKSLASH
    ensures ReplaceAll(Escaped(s, marks), c) == Escaped(s, marks + [c])
  {
    if s != "" {
      OneMorePass(s[1..], marks, c);
      var head := if s[0] in marks then [BACKSLASH, s[0]] else [s[0]];
      ReplaceAllConcat(head, Escaped(s[1..], marks), c);
      ReplaceShort(head, c);
    }
  }

  lemma {:induction false} ReplaceShort(head: string, c: char)
    requires c != BACKSLASH && (|head| == 1 || (|head| == 2 && head[0] == BACKSLASH && head[1] != c))
    ensures ReplaceAll(head, c) == if |head| == 1 && head[0] == c then [BACKSLASH, c] else head
  {
    if |head| == 2 {
      var last := head[1..];
      assert last == [head[1]] && last[1..] == "";
      assert ReplaceAll(last, c) == last;
    } else {
      assert head[1..] == "";
    }
  }

  /** The eighteen passes are one simultaneous substitution. */
  method Mdv2Escape(s: string) returns (r: string)
    ensures r == Escaped(s, SPECIAL)
  {
    var special := SPECIAL;
    r := s;
    EscapedByNone(s);
    for i := 0 to |special|
      invariant r == Escaped(s, special[..i])
    {
      OneMorePass(s, special[..i], special[i]);
      assert special[..i + 1] == special[..i] + [special[i]];
      r := ReplaceAll(r, special[i]);
    }
    assert special[..|special|] == special;
  }

  // ---- What a MarkdownV2 reader gets back ----------------------------------------------------------

  /** A backslash escapes a following character of code 1 to 126. */
  predicate Escapable(c: char) {
    1 <= c as int <= 126
  }

  /** The characters the Telegram Bot API wants escaped in MarkdownV2 text. */
  predicate Reserved(c: char) {
    c in "_*[]()~`>#+-=|{}.!"
  }

  lemma SpecialIsReserved(c: char)
    ensures c in SPECIAL <==> Reserved(c)
  {
    var reserved := "_*[]()~`>#+-=|{}.!";
    assert |reserved| == 18;
    assert reserved == SPECIAL;
  }

  /** The plain text of a message without markup; none if a reserved character stands unescaped. */
  function Unescaped(t: string): (r: seq<string>)
    ensures |r| <= 1
    decreases |t|
  {
    if t == "" then [""]
    else if t[0] == BACKSLASH && |t| > 1 && Escapable(t[1]) then
      var rest := Unescaped(t[2..]); if rest == [] then [] else [[t[1]] + rest[0]]
    else if Reserved(t[0]) then []
    else
      var rest := Unescaped(t[1..]); if rest == [] then [] else [[t[0]] + rest[0]]
  }

  /** No backslash of the text stands before a character it could escape. */
  predicate Unambiguous(s: string) {
    forall i :: 0 <= i < |s| - 1 && s[i] == BACKSLASH ==> !Escapable(s[i + 1])
  }

  lemma SpecialsAreEscapable(c: char)
    ensures c in SPECIAL <==> Reserved(c)
    ensures c in SPECIAL ==> Escapable(c) && c != BACKSLASH
  {
    SpecialIsReserved(c);
  }

  lemma UnambiguousTail(s: string)
    requires s != ""
    ensures Unambiguous(s) <==> Unambiguous(s[1..]) && (s[0] == BACKSLASH && |s| > 1 ==> !Escapable(s[1]))
  {
    if Unambiguous(s[1..]) && (s[0] == BACKSLASH && |s| > 1 ==> !Escapable(s[1])) {
      forall i | 0 <= i < |s| - 1 && s[i] == BACKSLASH ensures !Escapable(s[i + 1]) {
        if i > 0 {
          assert s[1..][i - 1] == s[i] && s[1..][i] == s[i + 1];
        }
      }
    }
    if Unambiguous(s) {
      forall i | 0 <= i < |s[1..]| - 1 && s[1..][i] == BACKSLASH ensures !Escapable(s[1..][i + 1]) {
        assert s[i + 1] == BACKSLASH;
      }
    }
  }

  lemma {:induction false} ReadsBackClean(s: string)
    requires Unambiguous(s)
    ensures Unescaped(Escaped(s, SPECIAL)) == [s]
  {
    hide Escapable, Unambiguous, Reserved;
    if s != "" {
      UnambiguousTail(s);
      SpecialsAreEscapable(s[0]);
      ReadsBackClean(s[1..]);
      var rest := Escaped(s[1..], SPECIAL);
      if s[0] in SPECIAL {
        var t := [BACKSLASH, s[0]] + rest;
        assert t[2..] == rest;
      } else {
        var t := [s[0]] + rest;
        assert t[1..] == rest;
        if s[0] == BACKSLASH && |s| > 1 {
          SpecialsAreEscapable(s[1]);
          assert rest[0] == s[1];
        }
      }
      assert s == [s[0]] + s[1..];
    }
  }

  /** What is read back is never longer than the text, and as long only if nothing was ambiguous. */
  lemma {:induction false} ReadsBackNoLonger(s: string)
    ensures var r := Unescaped(Escaped(s, SPECIAL));
            r != [] ==> |r[0]| <= |s| && (|r[0]| == |s| ==> Unambiguous(s))
    decreases |s|
  {
    hide Escapable, Unambiguous, Reserved;
    if s == "" {
      NothingIsUnambiguous();
    } else {
      UnambiguousTail(s);
      SpecialsAreEscapable(s[0]);
      ReadsBackNoLonger(s[1..]);
      var rest := Escaped(s[1..], SPECIAL);
      if s[0] in SPECIAL {
        var t := [BACKSLASH, s[0]] + rest;
        assert t[2..] == rest;
      } else {
        var t := [s[0]] + rest;
        assert t[1..] == rest;
        if s[0] == BACKSLASH && |s| > 1 {
          SpecialsAreEscapable(s[1]);
          if Escapable(s[1]) {
            ReadsBackNoLonger(s[2..]);
            ReadsBackAfterBackslash(s);
          } else {
            assert rest[0] == s[1];
          }
        }
      }
    }
  }

  lemma NothingIsUnambiguous()
    ensures Unambiguous("")
  {
  }

  lemma PairReadsAs(c: char, rest: string)
    requires Escapable(c)
    ensures var r := Unescaped(rest); Unescaped([BACKSLASH, c] + rest) == if r == [] then [] else [[c] + r[0]]
  {
    hide Escapable;
    assert ([BACKSLASH, c] + rest)[2..] == rest;
  }

  lemma BareReadsAsNothing(c: char, rest: string)
    requires c in SPECIAL
    ensures Unescaped([c] + rest) == []
  {
    SpecialsAreEscapable(c);
  }

  /** A backslash before an escapable character is lost, or leaves a special character bare. */
  lemma ReadsBackAfterBackslash(s: string)
    requires |s| > 1 && s[0] == BACKSLASH && Escapable(s[1])
    requires var r := Unescaped(Escaped(s[2..], SPECIAL)); r != [] ==> |r[0]| <= |s| - 2
    ensures var r := Unescaped(Escaped(s, SPECIAL)); r != [] ==> |r[0]| < |s|
  {
    var c, rest := s[1], Escaped(s[2..], SPECIAL);
    BackslashIsOrdinary();
    EscapedTwo(s, SPECIAL);
    hide Unescaped, Escapable, Escaped;
    if c in SPECIAL {
      PairReadsAs(BACKSLASH, [c] + rest);
      BareReadsAsNothing(c, rest);
    } else {
      PairReadsAs(c, rest);
    }
  }

  lemma EscapedTwo(s: string, marks: seq<char>)
    requires |s| > 1 && s[0] !in marks
    ensures var rest := Escaped(s[2..], marks);
            Escaped(s, marks) == if s[1] in marks then [s[0], BACKSLASH] + ([s[1]] + rest) else [s[0], s[1]] + rest
  {
    var rest := Escaped(s[2..], marks);
    EscapedOne(s, marks);
    EscapedOne(s[1..], marks);
    hide Escaped;
    assert s[1..][1..] == s[2..];
    Regroup(s[0], BACKSLASH, s[1], rest);
  }

  lemma EscapedOne(s: string, marks: seq<char>)
    requires s != ""
    ensures Escaped(s, marks) == (if s[0] in marks then [BACKSLASH, s[0]] else [s[0]]) + Escaped(s[1..], marks)
  {
  }

  lemma Regroup(a: char, b: char, c: char, rest: string)
    ensures [a] + ([b, c] + rest) == [a, b] + ([c] + rest)
    ensures [a] + ([c] + rest) == [a, c] + rest
  {
  }

  lemma BackslashIsOrdinary()
    ensures BACKSLASH !in SPECIAL && Escapable(BACKSLASH)
  {
  }

  /** Escaping is inverted by reading exactly on the texts in which no backslash stands before an escapable character;
      a backslash of the text is itself not escaped. */
  lemma EscapingIsInverted(s: string)
    ensures Unescaped(Escaped(s, SPECIAL)) == [s] <==> Unambiguous(s)
  {
    hide Unescaped, Escaped, Unambiguous;
    ReadsBackNoLonger(s);
    if Unambiguous(s) {
      ReadsBackClean(s);
    }
  }

  /** A backslash before an underscore: the escaped text is no MarkdownV2 text at all. */
  lemma BackslashIsLost(s: string)
    requires s == [BACKSLASH, '_']
    ensures Unescaped(Escaped(s, SPECIAL)) == []
  {
    BackslashIsOrdinary();
    var rest := Escaped(s[2..], SPECIAL);
    EscapedTwo(s, SPECIAL);
    hide Escaped;
    assert '_' in SPECIAL;
    PairReadsAs(BACKSLASH, ['_'] + rest);
    BareReadsAsNothing('_', rest);
    hide Unescaped;
  }
}

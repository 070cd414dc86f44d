/**
 * The command recogniser: turns the text heard by the speech service into
 * one of the five commands, by keyword search in a fixed priority order.
 */
module Voice {
  import opened Wrappers
  import opened Text

  datatype Command = Save | Close | Restore | Start | Stop

  /** The keyword table, in the order the recogniser tries it. */
  const Keywords: seq<(Command, seq<string>)> :=
    [(Save, ["save", "saved"]),
     (Close, ["close", "closing"]),
     (Restore, ["restore", "restoring"]),
     (Start, ["start", "begin"]),
     (Stop, ["stop", "halt", "quit", "exit"])]

  /** A command's place in the priority order. */
  function Rank(c: Command): (r: nat)
    ensures r < |Keywords| && Keywords[r].0 == c
  {
    match c
    case Save => 0
    case Close => 1
    case Restore => 2
    case Start => 3
    case Stop => 4
  }

  /** The keywords of a command. */
  function KeywordsOf(c: Command): seq<string>
  {
    Keywords[Rank(c)].1
  }

  /** Some keyword of the command occurs in the text. */
  ghost predicate Mentions(c: Command, text: string)
  {
    exists k :: k in KeywordsOf(c) && Contains(text, k)
  }

  /** The inner loop: does any of these keywords occur in the text? */
  predicate AnyKeyword(keywords: seq<string>, text: string)
  {
    keywords != [] && (Contains(text, keywords[0]) || AnyKeyword(keywords[1..], text))
  }

  lemma {:induction false} AnyKeywordIff(keywords: seq<string>, text: string)
    ensures AnyKeyword(keywords, text) <==> exists k :: k in keywords && Contains(text, k)
  {
    if keywords != [] {
      AnyKeywordIff(keywords[1..], text);
      if exists k :: k in keywords && Contains(text, k) {
        var k :| k in keywords && Contains(text, k);
        if k != keywords[0] {
          assert k in keywords[1..];
        }
      }
    }
  }

  /** The outer loop: the first command of the table with a keyword in the
      text, if any. */
  function FirstCommand(table: seq<(Command, seq<string>)>, text: string): Option<Command>
  {
    if table == [] then None
    else if AnyKeyword(table[0].1, text) then Some(table[0].0)
    else FirstCommand(table[1..], text)
  }

  /** The first command is the first row with a matching keyword, and there
      is none exactly when no row matches. */
  lemma {:induction false} FirstCommandSpec(table: seq<(Command, seq<string>)>, text: string)
    ensures FirstCommand(table, text).None? <==> forall i :: 0 <= i < |table| ==> !AnyKeyword(table[i].1, text)
    ensures FirstCommand(table, text).Some? ==>
              exists i :: 0 <= i < |table| && table[i].0 == FirstCommand(table, text).value
                          && AnyKeyword(table[i].1, text)
                          && forall j :: 0 <= j < i ==> !AnyKeyword(table[j].1, text)
  {
    if table != [] && !AnyKeyword(table[0].1, text) {
      FirstCommandSpec(table[1..], text);
      if FirstCommand(table, text).Some? {
        var i :| 0 <= i < |table[1..]| && table[1..][i].0 == FirstCommand(table, text).value
                 && AnyKeyword(table[1..][i].1, text)
                 && forall j :: 0 <= j < i ==> !AnyKeyword(table[1..][j].1, text);
        assert table[i + 1] == table[1..][i];
        forall j | 0 <= j < i + 1 ensures !AnyKeyword(table[j].1, text) {
          if j > 0 { assert table[j] == table[1..][j - 1]; }
        }
      } else {
        forall i | 0 <= i < |table| ensures !AnyKeyword(table[i].1, text) {
          if i > 0 { assert table[i] == table[1..][i - 1]; }
        }
      }
    }
  }

  /** `recognize_command`: `None` for missing or empty text, otherwise the
      first command in the order save, close, restore, start, stop that has a
      keyword occurring in the text. */
  function RecognizeCommand(text: Option<string>): (r: Option<Command>)
    ensures text.None? || text.value == "" ==> r.None?
  {
    if text.None? || text.value == "" then None
    else FirstCommand(Keywords, text.value)
  }

  /** A recognised command has one of its keywords in the text. */
  lemma RecognizedIsMentioned(text: Option<string>)
    ensures RecognizeCommand(text).Some? ==> text.Some? && Mentions(RecognizeCommand(text).value, text.value)
  {
    if text.Some? && text.value != "" {
      FirstCommandSpec(Keywords, text.value);
      if RecognizeCommand(text).Some? {
        var c := RecognizeCommand(text).value;
        var i :| 0 <= i < |Keywords| && Keywords[i].0 == c && AnyKeyword(Keywords[i].1, text.value)
                 && forall j :: 0 <= j < i ==> !AnyKeyword(Keywords[j].1, text.value);
        assert i == Rank(c);
        AnyKeywordIff(KeywordsOf(c), text.value);
      }
    }
  }

  /** Priority: no command ranked before the recognised one is mentioned. */
  lemma RecognizedHasPriority(text: Option<string>, d: Command)
    requires RecognizeCommand(text).Some?
    requires Rank(d) < Rank(RecognizeCommand(text).value)
    ensures !Mentions(d, text.value)
  {
    FirstCommandSpec(Keywords, text.value);
    var c := RecognizeCommand(text).value;
    var i :| 0 <= i < |Keywords| && Keywords[i].0 == c && AnyKeyword(Keywords[i].1, text.value)
             && forall j :: 0 <= j < i ==> !AnyKeyword(Keywords[j].1, text.value);
    assert i == Rank(c);
    AnyKeywordIff(KeywordsOf(d), text.value);
  }

  /** Nothing is recognised exactly when the text is missing or empty or
      mentions no command at all. */
  lemma NothingRecognized(text: Option<string>)
    ensures RecognizeCommand(text).None? <==>
              text.None? || text.value == "" || forall c :: !Mentions(c, text.value)
  {
    if text.Some? && text.value != "" {
      FirstCommandSpec(Keywords, text.value);
      forall c ensures Mentions(c, text.value) <==> AnyKeyword(Keywords[Rank(c)].1, text.value) {
        AnyKeywordIff(KeywordsOf(c), text.value);
      }
      if RecognizeCommand(text).None? {
        forall c ensures !Mentions(c, text.value) {
          assert !AnyKeyword(Keywords[Rank(c)].1, text.value);
        }
      } else {
        RecognizedIsMentioned(text);
      }
    }
  }

  /** A mentioned command is recognised, unless one of higher priority is. */
  lemma MentionedIsRecognized(text: string, c: Command)
    requires Mentions(c, text)
    ensures RecognizeCommand(Some(text)).Some?
    ensures Rank(RecognizeCommand(Some(text)).value) <= Rank(c)
  {
    NothingRecognized(Some(text));
    if Rank(c) < Rank(RecognizeCommand(Some(text)).value) {
      RecognizedHasPriority(Some(text), c);
    }
  }

  /** No keyword of a row occurs in a text that lacks one character of each
      keyword. */
  lemma {:induction false} NoKeywordBecause(text: string, keywords: seq<string>, missing: seq<char>)
    requires |missing| == |keywords|
    requires forall i :: 0 <= i < |keywords| ==> missing[i] in keywords[i] && missing[i] !in text
    ensures !AnyKeyword(keywords, text)
  {
    if keywords != [] {
      MissingCharNotContained(text, keywords[0], missing[0]);
      NoKeywordBecause(text, keywords[1..], missing[1..]);
    }
  }

  /** The phrases the assistant is spoken to with, and one it ignores. */
  lemma RestoreExample(text: string)
    requires text == "restore workspace"
    ensures RecognizeCommand(Some(text)) == Some(Restore)
  {
    NoKeywordBecause(text, ["save", "saved"], "vv");
    NoKeywordBecause(text, ["close", "closing"], "ll");
    assert AnyKeyword(["restore", "restoring"], text) by {
      ContainsInfix("", "restore", " workspace");
    }
    assert FirstCommand(Keywords[2..], text) == Some(Restore);
    assert FirstCommand(Keywords[1..], text) == Some(Restore);
  }

  lemma CloseExample(text: string)
    requires text == "close all apps"
    ensures RecognizeCommand(Some(text)) == Some(Close)
  {
    NoKeywordBecause(text, ["save", "saved"], "vv");
    assert AnyKeyword(["close", "closing"], text) by {
      ContainsInfix("", "close", " all apps");
    }
    assert FirstCommand(Keywords[1..], text) == Some(Close);
  }

  lemma SaveFirstExample(text: string)
    requires text == "save and close"
    ensures RecognizeCommand(Some(text)) == Some(Save)
  {
    assert AnyKeyword(["save", "saved"], text) by {
      ContainsInfix("", "save", " and close");
    }
  }

  lemma IgnoredExample(text: string)
    requires text == "hi"
    ensures RecognizeCommand(Some(text)) == None
  {
    assert FirstCommand(Keywords[3..], text) == None by {
      NoKeywordBecause(text, ["start", "begin"], "sb");
      NoKeywordBecause(text, ["stop", "halt", "quit", "exit"], "saqx");
      assert FirstCommand(Keywords[4..], text) == None;
    }
    NoKeywordBecause(text, ["save", "saved"], "vv");
    NoKeywordBecause(text, ["close", "closing"], "cc");
    NoKeywordBecause(text, ["restore", "restoring"], "ss");
    assert FirstCommand(Keywords[2..], text) == None;
    assert FirstCommand(Keywords[1..], text) == None;
  }
}

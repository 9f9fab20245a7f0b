/** The Jyutping column of a subtitle row, as the transcription step builds
    it: the converter's (character, reading) pairs for the text, each turned
    into one token and the tokens joined with single spaces. */
module Jyutping {
  import opened Wrappers
  import opened Words

  /** A character of the text and its reading; `None` where the converter
      has no reading for it. */
  datatype Reading = Reading(character: string, jyutping: Option<string>)

  /** A reading is usable when it is present and non-empty (Python truthiness). */
  predicate HasJyutping(r: Reading)
  {
    r.jyutping.Some? && r.jyutping.value != ""
  }

  /** The token of one pair: the reading when it is usable, else the character. */
  function Token(r: Reading): string
  {
    if HasJyutping(r) then r.jyutping.value else r.character
  }

  /** The Jyutping string of a row: empty when the converter gives no pair,
      otherwise it starts with the first token and ends with the last. */
  function JyutpingLine(readings: seq<Reading>): (line: string)
    ensures readings == [] ==> line == ""
    ensures |readings| >= 1 ==> Token(readings[0]) <= line
    ensures |readings| >= 1 ==> |Token(readings[|readings| - 1])| <= |line|
                                && line[|line| - |Token(readings[|readings| - 1])|..] == Token(readings[|readings| - 1])
  {
    var tokens := seq(|readings|, i requires 0 <= i < |readings| => Token(readings[i]));
    if |tokens| >= 1 then JoinEnds(tokens); Join(tokens) else Join(tokens)
  }

  /** Splitting the Jyutping string on spaces gives one token per character,
      in order: its reading when it has one, the character itself otherwise
      (as long as no token holds a space). */
  lemma JyutpingLineTokens(readings: seq<Reading>)
    requires |readings| >= 1
    requires forall i :: 0 <= i < |readings| ==> ' ' !in Token(readings[i])
    ensures |Split(JyutpingLine(readings))| == |readings|
    ensures forall i :: 0 <= i < |readings| && HasJyutping(readings[i]) ==>
                          Split(JyutpingLine(readings))[i] == readings[i].jyutping.value
    ensures forall i :: 0 <= i < |readings| && !HasJyutping(readings[i]) ==>
                          Split(JyutpingLine(readings))[i] == readings[i].character
  {
    var tokens := seq(|readings|, i requires 0 <= i < |readings| => Token(readings[i]));
    forall w | w in tokens
      ensures ' ' !in w
    {
      var i :| 0 <= i < |tokens| && tokens[i] == w;
    }
    SplitJoin(tokens);
  }
}

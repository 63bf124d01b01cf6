/** `TypingIndicator`: the sentence naming who is typing. */
module TypingIndicator {
  import opened Wrappers
  import Text

  /** The sentence for the typists' names; None renders nothing. */
  function DisplayText(names: seq<string>): (r: Option<string>)
    ensures r.None? <==> names == []
    ensures |names| == 1 ==> r == Some(names[0] + " is typing...")
    ensures |names| == 2 ==> r == Some(names[0] + " and " + names[1] + " are typing...")
    ensures |names| >= 3 ==> r == Some(names[0] + " and " + Text.NatToString(|names| - 1) + " others are typing...")
  {
    if |names| == 0 then None
    else if |names| == 1 then Some(names[0] + " is typing...")
    else if |names| == 2 then Some(names[0] + " and " + names[1] + " are typing...")
    else Some(names[0] + " and " + Text.NatToString(|names| - 1) + " others are typing...")
  }

  /** The sentence always starts with the first name. */
  lemma FirstNameLeads(names: seq<string>)
    requires names != []
    ensures Text.StartsWith(DisplayText(names).value, names[0])
  {
    var t := DisplayText(names).value;
    assert t[..|names[0]|] == names[0];
  }

  /** The word after a lead and before the first space of what follows. */
  lemma {:induction false} WordAfter(lead: string, word: string, rest: string)
    requires ' ' !in word && rest != [] && rest[0] == ' '
    ensures Text.BeforeFirst((lead + word + rest)[|lead|..], ' ') == word
  {
    assert (lead + word + rest)[|lead|..] == word + [' '] + rest[1..];
    Text.BeforeFirstOfJoin(word, ' ', rest[1..]);
  }

  /** From three names on, the word after the first name's " and " is the decimal count of
      everyone but the first. */
  lemma OthersCounted(names: seq<string>)
    requires |names| >= 3
    ensures Text.BeforeFirst(DisplayText(names).value[|names[0]| + 5..], ' ') == Text.NatToString(|names| - 1)
  {
    var digits := Text.NatToString(|names| - 1);
    assert ' ' !in digits;
    WordAfter(names[0] + " and ", digits, " others are typing...");
  }
}

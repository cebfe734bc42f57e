/**
 The shape of every console line the tool and the reporter print:
 a bracketed source label, one space, then the message.
 */
module Lines {
  /** `[tag] message`. */
  function BracketLine(tag: string, message: string): (line: string)
    ensures |line| == |tag| + |message| + 3
    ensures line[0] == '[' && line[1..|tag| + 1] == tag
    ensures line[|tag| + 1..|tag| + 3] == "] " && line[|tag| + 3..] == message
  {
    "[" + tag + "] " + message
  }

  /** A tag without ']' is read back from its line, and so is the message. */
  lemma BracketLineInjective(a: string, m: string, b: string, n: string)
    requires ']' !in a && ']' !in b
    requires BracketLine(a, m) == BracketLine(b, n)
    ensures a == b && m == n
  {
    if |a| != |b| {
      ShorterTagClash(a, m, b, n);
    }
    assert BracketLine(a, m)[|a| + 3..] == m;
  }

  /** Two lines with tags of different lengths, neither holding ']', differ. */
  lemma ShorterTagClash(a: string, m: string, b: string, n: string)
    requires ']' !in a && ']' !in b && |a| != |b|
    ensures BracketLine(a, m) != BracketLine(b, n)
  {
    var k := if |a| < |b| then |a| else |b|;
    var long := if |a| < |b| then b else a;
    assert long[k] != ']';
    assert BracketLine(a, m)[k + 1] != BracketLine(b, n)[k + 1];
  }

  /** The message of a valid file. */
  const ValidMessage := "VALID"

  /** `[name] VALID`, printed for a file that passed. */
  function ValidLine(name: string): string {
    BracketLine(name, ValidMessage)
  }
}

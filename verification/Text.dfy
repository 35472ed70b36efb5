/** Splitting a header or a hash at a separator, as `str::split` does. */
module Text {

  /** At least one part; parts may be empty. */
  function Split(s: string, sep: char): (parts: seq<string>)
    ensures |parts| >= 1
  {
    if s == "" then [""]
    else
      var rest := Split(s[1..], sep);
      if s[0] == sep then [""] + rest else [[s[0]] + rest[0]] + rest[1..]
  }

  /** The parts once a character that is not the separator is put in front. */
  function Grown(c: char, parts: seq<string>): seq<string>
    requires |parts| >= 1
  {
    [[c] + parts[0]] + parts[1..]
  }

  lemma SplitStep(c: char, rest: string, sep: char)
    ensures Split([c] + rest, sep) == if c == sep then [""] + Split(rest, sep) else Grown(c, Split(rest, sep))
  {
    assert ([c] + rest)[1..] == rest;
  }

  lemma AppendedParts(c: char, front: seq<string>, back: seq<string>)
    requires |front| >= 1
    ensures Grown(c, front + back) == Grown(c, front) + back
    ensures [""] + (front + back) == ([""] + front) + back
  {
    assert (front + back)[1..] == front[1..] + back;
  }

  /** Splitting around a separator splits both sides. */
  lemma {:induction false} SplitAround(a: string, sep: char, b: string)
    ensures Split(a + [sep] + b, sep) == Split(a, sep) + Split(b, sep)
  {
    if a == "" {
      SplitStep(sep, b, sep);
      assert a + [sep] + b == [sep] + b;
    } else {
      var rest := a[1..];
      SplitAround(rest, sep, b);
      assert a == [a[0]] + rest;
      assert a + [sep] + b == [a[0]] + (rest + [sep] + b);
      SplitStep(a[0], rest, sep);
      SplitStep(a[0], rest + [sep] + b, sep);
      AppendedParts(a[0], Split(rest, sep), Split(b, sep));
    }
  }

  /** Text without the separator is one part. */
  lemma {:induction false} SplitNothing(s: string, sep: char)
    requires sep !in s
    ensures Split(s, sep) == [s]
  {
    if s != "" {
      SplitNothing(s[1..], sep);
      assert [s[0]] + s[1..] == s;
    }
  }
}

/** Splitting texts at a separator: Python's text.split(sep). */
module Text {

  predicate Lacks(text: string, sep: char) { forall i :: 0 <= i < |text| ==> text[i] != sep }

  function Split(text: string, sep: char): (r: seq<string>)
    ensures r != []
  {
    if text == "" then [""]
    else
      var rest := Split(text[1..], sep);
      if text[0] == sep then [""] + rest else [[text[0]] + rest[0]] + rest[1..]
  }

  lemma {:induction false} SplitAt(s: string, sep: char, rest: string)
    requires Lacks(s, sep)
    ensures Split(s + [sep] + rest, sep) == [s] + Split(rest, sep)
  {
    var text := s + [sep] + rest;
    if s == "" {
      assert text[1..] == rest;
    } else {
      SplitAt(s[1..], sep, rest);
      assert text[1..] == s[1..] + [sep] + rest;
      assert s == [s[0]] + s[1..];
    }
  }

  lemma {:induction false} SplitPlain(s: string, sep: char)
    requires Lacks(s, sep)
    ensures Split(s, sep) == [s]
  {
    if s != "" {
      SplitPlain(s[1..], sep);
      assert s == [s[0]] + s[1..];
    }
  }

  lemma {:induction false} SplitLacks(text: string, sep: char)
    ensures forall part :: part in Split(text, sep) ==> Lacks(part, sep)
  {
    if text != "" {
      SplitLacks(text[1..], sep);
      var rest := Split(text[1..], sep);
      assert rest[0] in rest && forall part :: part in rest[1..] ==> part in rest;
    }
  }

  function Join(parts: seq<string>, sep: char): string {
    if parts == [] then ""
    else if |parts| == 1 then parts[0]
    else parts[0] + [sep] + Join(parts[1..], sep)
  }

  lemma {:induction false} JoinSplit(text: string, sep: char)
    ensures Join(Split(text, sep), sep) == text
  {
    if text != "" {
      JoinSplit(text[1..], sep);
      var rest, all := Split(text[1..], sep), Split(text, sep);
      assert text == [text[0]] + text[1..];
      if text[0] == sep { assert all[1..] == rest; } else { assert all[1..] == rest[1..]; }
    }
  }

  /** Parts without the separator survive being joined and split. */
  lemma {:induction false} SplitJoin(parts: seq<string>, sep: char)
    requires parts != [] && forall part :: part in parts ==> Lacks(part, sep)
    ensures Split(Join(parts, sep), sep) == parts
  {
    if |parts| == 1 {
      SplitPlain(parts[0], sep);
    } else {
      SplitJoin(parts[1..], sep);
      SplitAt(parts[0], sep, Join(parts[1..], sep));
      assert parts == [parts[0]] + parts[1..];
    }
  }
}

/**
 * Text helpers shared by the line-oriented outputs of the model: joining
 * fields with a separator character and splitting text at one.
 */
module Text {

  /** Fields joined with `sep` between neighbours (Python's `sep.join(fields)`). */
  function Join(fields: seq<string>, sep: char): string
    requires |fields| > 0
  {
    if |fields| == 1 then fields[0] else fields[0] + [sep] + Join(fields[1..], sep)
  }

  /** Text cut at every occurrence of `sep` (Python's `s.split(sep)`). */
  function Split(s: string, sep: char): (r: seq<string>)
    ensures |r| > 0
  {
    if s == [] then [""]
    else
      var rest := Split(s[1..], sep);
      if s[0] == sep then [""] + rest else [[s[0]] + rest[0]] + rest[1..]
  }

  /** Each item followed by a newline, as a loop of `f.write(f"{d}\n")` produces. */
  function Lines(items: seq<string>): string
  {
    if items == [] then "" else items[0] + "\n" + Lines(items[1..])
  }

  lemma {:induction false} SplitFree(f: string, sep: char)
    requires sep !in f
    ensures Split(f, sep) == [f]
  {
    if f != [] {
      SplitFree(f[1..], sep);
      assert [f[0]] + f[1..] == f;
    }
  }

  lemma {:induction false} SplitField(f: string, sep: char, rest: string)
    requires sep !in f
    ensures Split(f + [sep] + rest, sep) == [f] + Split(rest, sep)
  {
    if f == [] {
      assert f + [sep] + rest == [sep] + rest;
      assert ([sep] + rest)[1..] == rest;
    } else {
      var s := f + [sep] + rest;
      assert s[0] == f[0] && s[1..] == f[1..] + [sep] + rest;
      SplitField(f[1..], sep, rest);
      assert [f[0]] + f[1..] == f;
    }
  }

  /** Splitting joined fields gives the fields back when none contains the separator. */
  lemma {:induction false} SplitJoin(fields: seq<string>, sep: char)
    requires |fields| > 0
    requires forall k :: 0 <= k < |fields| ==> sep !in fields[k]
    ensures Split(Join(fields, sep), sep) == fields
  {
    if |fields| == 1 {
      SplitFree(fields[0], sep);
    } else {
      SplitJoin(fields[1..], sep);
      SplitField(fields[0], sep, Join(fields[1..], sep));
    }
  }

  /** Newline-terminated lines are the items joined by newlines, plus an empty tail. */
  lemma {:induction false} LinesAsJoin(items: seq<string>)
    ensures Lines(items) == Join(items + [""], '\n')
  {
    if items != [] {
      LinesAsJoin(items[1..]);
      assert (items + [""])[1..] == items[1..] + [""];
    }
  }

  /** Cutting the text of `Lines(items)` at newlines gives one piece per item, then the empty rest. */
  lemma LinesSplit(items: seq<string>)
    requires forall k :: 0 <= k < |items| ==> '\n' !in items[k]
    ensures Split(Lines(items), '\n') == items + [""]
  {
    LinesAsJoin(items);
    var ext := items + [""];
    forall k | 0 <= k < |ext| ensures '\n' !in ext[k] {
      if k < |items| { assert ext[k] == items[k]; }
    }
    SplitJoin(ext, '\n');
  }
}

/**
 The parts of the Java and Apache Commons string libraries that the builder
 processor relies on, stated on `string` (a sequence of `char`), together with
 `Split`, the reader that undoes `Join`.
 */
module JavaLang {

  datatype Option<+T> = None | Some(value: T)

  /** A value, or the exception a Java call would have thrown instead. */
  datatype Result<+R, +E> = Ok(value: R) | Err(error: E)

  /** The unchecked exceptions the core can raise. */
  datatype JavaException =
    | StringIndexOutOfBounds(begin: int, end: int, length: int)

  /** `String.lastIndexOf`: the index of the last `c` in `s`, or -1 when there is none. */
  function LastIndexOf(s: string, c: char): (r: int)
    ensures -1 <= r < |s|
    ensures r == -1 <==> c !in s
    ensures r >= 0 ==> s[r] == c
    ensures forall k :: r < k < |s| ==> s[k] != c
  {
    if s == [] then -1
    else if s[|s| - 1] == c then |s| - 1
    else
      assert s == s[..|s| - 1] + [s[|s| - 1]];
      LastIndexOf(s[..|s| - 1], c)
  }

  /** The last occurrence of `c` is the one after which no `c` follows. */
  lemma LastIndexOfBefore(x: string, c: char, y: string)
    requires c !in y
    ensures LastIndexOf(x + [c] + y, c) == |x|
  {
    var s := x + [c] + y;
    var r := LastIndexOf(s, c);
    assert s[|x|] == c;
  }

  /**
   `String.substring(begin, end)`: the characters from `begin` up to, not
   including, `end`; any index outside `0 <= begin <= end <= length` throws.
   */
  function Substring(s: string, begin: int, end: int): (r: Result<string, JavaException>)
    ensures r.Ok? <==> 0 <= begin <= end <= |s|
    ensures r.Ok? ==> |r.value| == end - begin && r.value == s[begin..end]
    ensures r.Err? ==> r.error == StringIndexOutOfBounds(begin, end, |s|)
  {
    if 0 <= begin <= end <= |s| then Ok(s[begin..end])
    else Err(StringIndexOutOfBounds(begin, end, |s|))
  }

  /** `Collectors.joining(sep)`: the parts in order with `sep` between neighbours. */
  function Join(sep: string, parts: seq<string>): string
  {
    if |parts| == 0 then ""
    else if |parts| == 1 then parts[0]
    else Join(sep, parts[..|parts| - 1]) + sep + parts[|parts| - 1]
  }

  /** A character absent from the separator and from every part is absent from the joined text. */
  lemma {:induction false} JoinAvoids(sep: string, parts: seq<string>, c: char)
    requires c !in sep
    requires forall i :: 0 <= i < |parts| ==> c !in parts[i]
    ensures c !in Join(sep, parts)
  {
    if |parts| > 1 {
      JoinAvoids(sep, parts[..|parts| - 1], c);
    }
  }

  /** The pieces of `s` between occurrences of `sep`, in order; never empty. */
  function Split(s: string, sep: char): (r: seq<string>)
    ensures |r| >= 1
    ensures forall i :: 0 <= i < |r| ==> sep !in r[i]
    decreases |s|
  {
    var k := LastIndexOf(s, sep);
    if k < 0 then [s]
    else Split(s[..k], sep) + [s[k + 1..]]
  }

  /** Splitting a joined list gives the list back when no part holds the separator. */
  lemma {:induction false} SplitJoin(sep: char, parts: seq<string>)
    requires |parts| >= 1
    requires forall i :: 0 <= i < |parts| ==> sep !in parts[i]
    ensures Split(Join([sep], parts), sep) == parts
  {
    if |parts| == 1 {
      assert sep !in parts[0];
    } else {
      var init, last := parts[..|parts| - 1], parts[|parts| - 1];
      var joined := Join([sep], init);
      assert sep !in last;
      var s := joined + [sep] + last;
      assert Join([sep], parts) == s;
      LastIndexOfBefore(joined, sep, last);
      assert s[..|joined|] == joined;
      assert s[|joined| + 1..] == last;
      assert Split(s, sep) == Split(joined, sep) + [last];
      SplitJoin(sep, init);
      assert parts == init + [last];
    }
  }

  /** Joining the pieces of a split gives the text back. */
  lemma {:induction false} JoinSplit(s: string, sep: char)
    ensures Join([sep], Split(s, sep)) == s
    decreases |s|
  {
    var k := LastIndexOf(s, sep);
    if k >= 0 {
      var front := Split(s[..k], sep);
      var parts := front + [s[k + 1..]];
      assert Split(s, sep) == parts;
      assert parts[..|parts| - 1] == front;
      JoinSplit(s[..k], sep);
      assert Join([sep], parts) == s[..k] + [sep] + s[k + 1..];
      assert s == s[..k] + [s[k]] + s[k + 1..];
    }
  }

  /** `Character.toTitleCase` on the ASCII letters; every other character is its own title case. */
  function ToTitleCase(c: char): char
  {
    if 'a' <= c <= 'z' then (c as int - 32) as char else c
  }

  /**
   `StringUtils.capitalize`: the first character title-cased, the rest
   unchanged; the empty string stays empty.
   */
  function Capitalize(s: string): (r: string)
    ensures |r| == |s|
    ensures |s| > 0 ==> r[0] == ToTitleCase(s[0]) && r[1..] == s[1..]
  {
    if s == [] then s else [ToTitleCase(s[0])] + s[1..]
  }

  /**
   Two strings capitalize alike exactly when they agree after their first
   character and their first characters have the same title case.
   */
  lemma CapitalizeCollides(a: string, b: string)
    ensures Capitalize(a) == Capitalize(b) <==>
      |a| == |b| && (|a| == 0 || (ToTitleCase(a[0]) == ToTitleCase(b[0]) && a[1..] == b[1..]))
  {
    if Capitalize(a) == Capitalize(b) && |a| > 0 {
      assert Capitalize(a)[0] == Capitalize(b)[0];
      assert Capitalize(a)[1..] == Capitalize(b)[1..];
    }
  }
}

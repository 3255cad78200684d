// Text files as Python reads them: `read_text` translates every line end, and
// `write_text(newline="\n")` writes what it is given.
module TextMode {

  // CRLF and a lone CR read as LF.
  function Universal(text: string): (r: string)
    ensures '\r' !in r && |r| <= |text|
    decreases |text|
  {
    if text == "" then ""
    else [if text[0] == '\r' then '\n' else text[0]] + Universal(text[Ends(text)..])
  }

  // How many characters the first line end takes: two for CRLF.
  function Ends(text: string): (n: nat)
    requires text != ""
    ensures 1 <= n <= |text|
  {
    if text[0] == '\r' && |text| > 1 && text[1] == '\n' then 2 else 1
  }

  // Reading changes a text exactly when it holds a carriage return.
  lemma {:induction false} UniversalIsExact(text: string)
    ensures Universal(text) == text <==> '\r' !in text
    decreases |text|
  {
    if text != "" && text[0] != '\r' {
      UniversalIsExact(text[1..]);
      assert text == [text[0]] + text[1..];
    }
  }

  lemma UniversalIsIdempotent(text: string)
    ensures Universal(Universal(text)) == Universal(text)
  {
    UniversalIsExact(Universal(text));
  }

  lemma {:induction false} UniversalAppend(a: string, b: string)
    requires '\r' !in a
    ensures Universal(a + b) == a + Universal(b)
    decreases |a|
  {
    if a == "" {
      assert a + b == b;
    } else {
      assert a[0] in a && (a + b)[0] == a[0] && (a + b)[1..] == a[1..] + b;
      UniversalAppend(a[1..], b);
    }
  }

  // What is left of the file after the first `n` characters read from it.
  function Rest(text: string, n: nat): string
    requires n <= |Universal(text)|
    decreases n
  {
    if n == 0 then text else Rest(text[Ends(text)..], n - 1)
  }

  lemma {:induction false} RestReads(text: string, n: nat)
    requires n <= |Universal(text)|
    ensures Universal(Rest(text, n)) == Universal(text)[n..]
    ensures '\r' !in text ==> Rest(text, n) == text[n..]
    decreases n
  {
    if n > 0 {
      var next := text[Ends(text)..];
      RestReads(next, n - 1);
      assert Universal(text)[1..] == Universal(next);
      assert Universal(text)[n..] == Universal(next)[n - 1..];
      if '\r' !in text {
        assert text[n..] == next[n - 1..];
      }
    }
  }

  lemma {:induction false} RestAppend(a: string, b: string)
    requires '\r' !in a
    ensures Universal(a + b) == a + Universal(b) && Rest(a + b, |a|) == b
    decreases |a|
  {
    UniversalAppend(a, b);
    if a == "" {
      assert a + b == b;
    } else {
      assert a[0] in a && (a + b)[1..] == a[1..] + b;
      RestAppend(a[1..], b);
    }
  }

  // `text.replace("\r\n", "\n")`: a lone carriage return stays.
  function Unix(text: string): string
    decreases |text|
  {
    if text == "" then ""
    else [if Ends(text) == 2 then '\n' else text[0]] + Unix(text[Ends(text)..])
  }

  predicate LoneAt(text: string, i: int) {
    0 <= i < |text| && text[i] == '\r' && !(i + 1 < |text| && text[i + 1] == '\n')
  }

  lemma LoneShifts(text: string, i: int)
    requires text != ""
    ensures LoneAt(text[Ends(text)..], i) <==> LoneAt(text, i + Ends(text)) && 0 <= i
  {
    var n := Ends(text);
    assert 0 <= i < |text| - n ==> text[n..][i] == text[i + n];
    assert 0 <= i < |text| - n - 1 ==> text[n..][i + 1] == text[i + n + 1];
  }

  lemma {:induction false} UnixKeepsLoneReturns(text: string)
    ensures '\r' in Unix(text) <==> exists i :: LoneAt(text, i)
    decreases |text|
  {
    if text != "" {
      var n, next := Ends(text), text[Ends(text)..];
      UnixKeepsLoneReturns(next);
      assert LoneAt(text, 0) <==> text[0] == '\r' && n == 1;
      assert n == 2 ==> !LoneAt(text, 1);
      if j: int :| LoneAt(next, j) {
        LoneShifts(text, j);
      }
      if i: int :| LoneAt(text, i) {
        LoneShifts(text, i - n);
        assert i == 0 || LoneAt(next, i - n);
      }
    }
  }
}

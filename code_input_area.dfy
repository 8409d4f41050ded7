/**
  The code editor's Tab handling and its line and character counters.
*/
module CodeInputArea {
  import opened Strings
  import opened Wrappers

  /** The value handed to `handleCodeChange` and the caret placed after it. */
  datatype TabResult = TabResult(value: string, cursor: nat)

  /** Tab replaces the selection by four spaces and puts the caret after them. */
  function TabEdit(code: string, start: nat, end: nat): TabResult
    requires start <= end <= |code|
  {
    TabResult(code[..start] + "    " + code[end..], start + 4)
  }

  /** `handleKeyDown`: only the Tab key is handled; any other key is left to the textarea. */
  function HandleKeyDown(key: string, code: string, start: nat, end: nat): (r: Option<TabResult>)
    requires start <= end <= |code|
    ensures r.Some? <==> key == "Tab"
    ensures r.Some? ==> r.value == TabEdit(code, start, end)
  {
    if key == "Tab" then Some(TabEdit(code, start, end)) else None
  }

  /** `userCode.split('\n').length`. */
  function LineCount(code: string): nat {
    |Split(code, '\n')|
  }

  /** `userCode.length`. */
  function CharCount(code: string): nat {
    |code|
  }

  /** The editor shows one line more than there are newlines. */
  lemma {:induction false} LineCountIsNewlines(code: string)
    ensures LineCount(code) == Count(code, '\n') + 1
  {
    SplitLength(code, '\n');
  }

  /** The four spaces sit where the selection was, the text around it is
      kept, the caret is after them, and the length changes accordingly. */
  lemma {:induction false} TabEditShape(code: string, start: nat, end: nat)
    requires start <= end <= |code|
    ensures var r := TabEdit(code, start, end);
      && CharCount(r.value) == CharCount(code) - (end - start) + 4
      && r.value[..start] == code[..start]
      && r.value[start..r.cursor] == "    "
      && r.value[r.cursor..] == code[end..]
  {
    var v := TabEdit(code, start, end).value;
    assert v[..start] == code[..start];
    assert v[start..start + 4] == "    ";
    assert v[start + 4..] == code[end..];
  }

  /** Tab removes the selected lines' breaks and adds none. */
  lemma {:induction false} TabEditLines(code: string, start: nat, end: nat)
    requires start <= end <= |code|
    ensures LineCount(TabEdit(code, start, end).value) == LineCount(code) - Count(code[start..end], '\n')
  {
    var v := TabEdit(code, start, end).value;
    LineCountIsNewlines(v);
    LineCountIsNewlines(code);
    assert code == code[..start] + (code[start..end] + code[end..]);
    CountAppend(code[..start], code[start..end] + code[end..], '\n');
    CountAppend(code[start..end], code[end..], '\n');
    assert v == code[..start] + ("    " + code[end..]);
    CountAppend(code[..start], "    " + code[end..], '\n');
    CountAppend("    ", code[end..], '\n');
    CountAbsent("    ", '\n');
  }
}

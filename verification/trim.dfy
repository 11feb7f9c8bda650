/**
 * trim.py: strips `( ... )` comments and most whitespace from a tbf1 program. The
 * program reads standard input a byte at a time and steers its output with five flags;
 * here input and output are sequences and the `-i` (deindent) switch is a parameter.
 */
module CommentStripper {

  /**
   * The five flags: whitespace is pending, inside a comment, a newline is pending, nothing
   * has been written yet, and the scan is still in a line's leading spaces.
   */
  datatype TrimState = TrimState(wsp: bool, comment: bool, newline: bool, firstline: bool, startline: bool)

  const Initial: TrimState := TrimState(false, false, false, true, true)

  /** What pending whitespace turns into once a byte is written: one newline or one space. */
  function Pending(st: TrimState): (sep: seq<char>)
    ensures |sep| <= 1
    ensures sep == "\n" <==> st.newline && !st.firstline
    ensures sep == " " <==> !st.newline && st.wsp
    ensures sep == "" <==> (st.newline && st.firstline) || (!st.newline && !st.wsp)
  {
    if st.newline then (if st.firstline then "" else "\n")
    else if st.wsp then " "
    else ""
  }

  /** The state after a byte is written: nothing pending, and on a line's start only for a space. */
  function Written(st: TrimState, c: char): TrimState {
    st.(startline := c == ' ', wsp := false, newline := false, firstline := false)
  }

  /**
   * The loop of trim.py from input position `i`. A quote is written together with the byte
   * after it, which is copied as it is and not looked at.
   */
  function Scan(input: seq<char>, deindent: bool, i: nat, st: TrimState): (out: seq<char>)
    requires i <= |input|
    ensures |out| <= 2 * (|input| - i)
    decreases |input| - i
  {
    if i == |input| then []
    else
      var c := input[i];
      if c == '(' then Scan(input, deindent, i + 1, st.(comment := true))
      else if c == ')' then Scan(input, deindent, i + 1, st.(comment := false))
      else if st.comment then Scan(input, deindent, i + 1, st)
      else if c == '\n' then Scan(input, deindent, i + 1, st.(startline := true, newline := true))
      else if (deindent || !st.startline) && c == ' ' then Scan(input, deindent, i + 1, st.(wsp := true))
      else if c == '\'' then
        var next := if i + 1 < |input| then i + 2 else i + 1;
        Pending(st) + [c] + input[i + 1 .. next] + Scan(input, deindent, next, Written(st, c))
      else Pending(st) + [c] + Scan(input, deindent, i + 1, Written(st, c))
  }

  /**
   * The whole program: the scan, then one newline written unconditionally. Comments do not
   * reach the output, which starts with a newline only when it is nothing else, and with
   * deindent every run of blanks between two written bytes is at most one byte.
   */
  function Trim(input: seq<char>, deindent: bool): (out: seq<char>)
    ensures |out| >= 1 && out[|out| - 1] == '\n'
    ensures out[..|out| - 1] == Scan(input, deindent, 0, Initial)
    ensures ParensQuoted(out)
    ensures out[0] == '\n' ==> out == "\n"
    ensures deindent ==>
      forall k :: 0 <= k && k + 1 < |out| && IsBlank(out[k]) && IsBlank(out[k + 1]) ==> k > 0 && out[k - 1] == '\''
  {
    var scan := Scan(input, deindent, 0, Initial);
    ScanParensQuoted(input, deindent, 0, Initial);
    ScanFirstNotNewline(input, deindent, 0, Initial);
    ScanSingleBlanksWhen(input, deindent);
    NewlineAppended(scan, deindent);
    scan + "\n"
  }

  /** `ScanSingleBlanks` from the start of the input, when deindenting. */
  lemma ScanSingleBlanksWhen(input: seq<char>, deindent: bool)
    ensures deindent ==> SingleBlanks(Scan(input, deindent, 0, Initial))
  {
    if deindent {
      ScanSingleBlanks(input, 0, Initial);
    }
  }

  /** The final newline keeps the scan's properties. */
  lemma NewlineAppended(scan: seq<char>, deindent: bool)
    requires ParensQuoted(scan) && (|scan| > 0 ==> scan[0] != '\n')
    requires deindent ==> SingleBlanks(scan)
    ensures var out := scan + "\n";
      && ParensQuoted(out) && (out[0] == '\n' ==> out == "\n")
      && (deindent ==>
            forall k :: 0 <= k && k + 1 < |out| && IsBlank(out[k]) && IsBlank(out[k + 1]) ==> k > 0 && out[k - 1] == '\'')
  {
    var out := scan + "\n";
    ParensQuotedJoin(scan, "\n");
    if |scan| > 0 {
      assert out[0] == scan[0];
    }
    if deindent {
      forall k | 0 <= k && k + 1 < |out| && IsBlank(out[k]) && IsBlank(out[k + 1]) ensures k > 0 && out[k - 1] == '\'' {
        assert out[k] == scan[k];
        if k + 1 < |scan| {
          assert out[k + 1] == scan[k + 1];
        }
        if k > 0 {
          assert out[k - 1] == scan[k - 1];
        }
      }
    }
  }

  predicate IsBlank(c: char) {
    c == ' ' || c == '\n'
  }

  /** Inside a comment nothing is written until the next `)`, which ends the comment. */
  lemma {:induction false} CommentBody(input: seq<char>, deindent: bool, k: nat, close: nat, st: TrimState)
    requires k <= close < |input| && input[close] == ')' && st.comment
    requires forall m :: k <= m < close ==> input[m] != ')'
    ensures Scan(input, deindent, k, st) == Scan(input, deindent, close + 1, st.(comment := false))
    decreases close - k
  {
    if k < close {
      if input[k] == '(' {
        assert st.(comment := true) == st;
      }
      CommentBody(input, deindent, k + 1, close, st);
    }
  }

  /** A comment with no `)` after it hides the rest of the input. */
  lemma {:induction false} CommentToEnd(input: seq<char>, deindent: bool, k: nat, st: TrimState)
    requires k <= |input| && st.comment
    requires forall m :: k <= m < |input| ==> input[m] != ')'
    ensures Scan(input, deindent, k, st) == []
    decreases |input| - k
  {
    if k < |input| {
      if input[k] == '(' {
        assert st.(comment := true) == st;
      }
      CommentToEnd(input, deindent, k + 1, st);
    }
  }

  /** `close` holds the first `)` after position `i`. */
  predicate NextClose(input: seq<char>, i: nat, close: nat) {
    i < close < |input| && input[close] == ')' && forall m :: i < m < close ==> input[m] != ')'
  }

  /**
   * A `(` read outside a quote starts a comment: nothing up to and including the next
   * `)` is written and no flag but `comment` changes; with no `)`, nothing more is written.
   */
  lemma CommentSkipped(input: seq<char>, deindent: bool, i: nat, st: TrimState)
    requires i < |input| && input[i] == '('
    ensures forall close: nat :: NextClose(input, i, close) ==>
      Scan(input, deindent, i, st) == Scan(input, deindent, close + 1, st.(comment := false))
    ensures (forall m :: i < m < |input| ==> input[m] != ')') ==> Scan(input, deindent, i, st) == []
  {
    forall close: nat | NextClose(input, i, close)
      ensures Scan(input, deindent, i, st) == Scan(input, deindent, close + 1, st.(comment := false))
    {
      CommentBody(input, deindent, i + 1, close, st.(comment := true));
    }
    if forall m :: i < m < |input| ==> input[m] != ')' {
      CommentToEnd(input, deindent, i + 1, st.(comment := true));
    }
  }

  /** Every parenthesis in `out` comes right after a quote. */
  predicate ParensQuoted(out: seq<char>) {
    forall k :: 0 <= k < |out| && (out[k] == '(' || out[k] == ')') ==> k > 0 && out[k - 1] == '\''
  }

  lemma ParensQuotedJoin(head: seq<char>, rest: seq<char>)
    requires ParensQuoted(head) && ParensQuoted(rest)
    requires |rest| > 0 ==> rest[0] != '(' && rest[0] != ')'
    ensures ParensQuoted(head + rest)
  {
    var out := head + rest;
    forall k | 0 <= k < |out| && (out[k] == '(' || out[k] == ')') ensures k > 0 && out[k - 1] == '\'' {
      if k >= |head| {
        assert out[k] == rest[k - |head|];
        if k > |head| {
          assert out[k - 1] == rest[k - |head| - 1];
        }
      }
    }
  }

  lemma {:induction false} ScanParensQuoted(input: seq<char>, deindent: bool, i: nat, st: TrimState)
    requires i <= |input|
    ensures var out := Scan(input, deindent, i, st);
      ParensQuoted(out) && (|out| > 0 ==> out[0] != '(' && out[0] != ')')
    decreases |input| - i
  {
    if i < |input| {
      var c := input[i];
      if c == '(' || c == ')' || st.comment || c == '\n' || ((deindent || !st.startline) && c == ' ') {
        var st' := if c == '(' then st.(comment := true) else if c == ')' then st.(comment := false)
                   else if st.comment then st else if c == '\n' then st.(startline := true, newline := true)
                   else st.(wsp := true);
        ScanParensQuoted(input, deindent, i + 1, st');
      } else {
        var next := if c == '\'' && i + 1 < |input| then i + 2 else i + 1;
        ScanParensQuoted(input, deindent, next, Written(st, c));
        WrittenParensQuoted(input, deindent, i, st);
      }
    }
  }

  /** A byte that is neither a comment, a comment's content nor skipped whitespace is written. */
  lemma ScanWrites(input: seq<char>, deindent: bool, i: nat, st: TrimState)
    requires i < |input| && !st.comment
    requires input[i] !in {'(', ')', '\n'} && !((deindent || !st.startline) && input[i] == ' ')
    ensures var next := if input[i] == '\'' && i + 1 < |input| then i + 2 else i + 1;
      Scan(input, deindent, i, st)
        == Pending(st) + [input[i]] + input[i + 1 .. next] + Scan(input, deindent, next, Written(st, input[i]))
  {
    if input[i] != '\'' {
      assert input[i + 1 .. i + 1] == [];
    }
  }

  /** One written byte (and the byte a quote copies) in front of a scan with quoted parentheses. */
  lemma WrittenParensQuoted(input: seq<char>, deindent: bool, i: nat, st: TrimState)
    requires i < |input| && !st.comment
    requires input[i] !in {'(', ')', '\n'} && !((deindent || !st.startline) && input[i] == ' ')
    requires var next := if input[i] == '\'' && i + 1 < |input| then i + 2 else i + 1;
      var out := Scan(input, deindent, next, Written(st, input[i]));
      ParensQuoted(out) && (|out| > 0 ==> out[0] != '(' && out[0] != ')')
    ensures var out := Scan(input, deindent, i, st);
      ParensQuoted(out) && (|out| > 0 ==> out[0] != '(' && out[0] != ')')
  {
    var c := input[i];
    var next := if c == '\'' && i + 1 < |input| then i + 2 else i + 1;
    var rest := Scan(input, deindent, next, Written(st, c));
    var head := Pending(st) + [c] + input[i + 1 .. next];
    ScanWrites(input, deindent, i, st);
    var p := |Pending(st)|;
    assert head[p] == c && head[0] != '(' && head[0] != ')';
    assert ParensQuoted(head) by {
      if next == i + 2 {
        assert head[p + 1] == input[i + 1] && |head| == p + 2;
      }
    }
    ParensQuotedJoin(head, rest);
  }

  /** Until the first byte is written no newline is pending, so the output does not start with one. */
  lemma {:induction false} ScanFirstNotNewline(input: seq<char>, deindent: bool, i: nat, st: TrimState)
    requires i <= |input| && st.firstline
    ensures var out := Scan(input, deindent, i, st); |out| > 0 ==> out[0] != '\n'
    decreases |input| - i
  {
    if i < |input| {
      var c := input[i];
      if c == '(' || c == ')' || st.comment || c == '\n' || ((deindent || !st.startline) && c == ' ') {
        var st' := if c == '(' then st.(comment := true) else if c == ')' then st.(comment := false)
                   else if st.comment then st else if c == '\n' then st.(startline := true, newline := true)
                   else st.(wsp := true);
        ScanFirstNotNewline(input, deindent, i + 1, st');
      }
    }
  }

  /**
   * With deindent, two blanks are never written next to each other except where the first
   * is the byte copied after a quote; the first written byte after blanks is not blank, and
   * a blank at the end is one copied after a quote.
   */
  predicate SingleBlanks(out: seq<char>) {
    && (forall k :: 0 <= k && k + 1 < |out| && IsBlank(out[k]) && IsBlank(out[k + 1]) ==> k > 0 && out[k - 1] == '\'')
    && (|out| > 0 && IsBlank(out[0]) ==> |out| >= 2 && !IsBlank(out[1]))
    && (|out| > 0 && IsBlank(out[|out| - 1]) ==> |out| >= 2 && out[|out| - 2] == '\'')
  }

  lemma SingleBlanksJoin(head: seq<char>, rest: seq<char>)
    requires |head| >= 1 && SingleBlanks(head) && SingleBlanks(rest)
    requires !IsBlank(head[|head| - 1]) || (|head| >= 2 && head[|head| - 2] == '\'')
    ensures SingleBlanks(head + rest)
  {
    var out := head + rest;
    forall k | 0 <= k && k + 1 < |out| && IsBlank(out[k]) && IsBlank(out[k + 1]) ensures k > 0 && out[k - 1] == '\'' {
      if k + 1 < |head| {
        assert out[k] == head[k] && out[k + 1] == head[k + 1];
      } else if k + 1 == |head| {
        assert out[k] == head[|head| - 1] && out[k - 1] == head[|head| - 2];
      } else {
        assert out[k] == rest[k - |head|] && out[k + 1] == rest[k - |head| + 1];
        if k == |head| {
          assert false;
        } else {
          assert out[k - 1] == rest[k - |head| - 1];
        }
      }
    }
    if |rest| > 0 {
      assert out[|out| - 1] == rest[|rest| - 1];
      if |rest| >= 2 {
        assert out[|out| - 2] == rest[|rest| - 2];
      } else {
        assert out[|out| - 2] == head[|head| - 1];
        assert IsBlank(rest[0]) ==> false;
      }
    }
  }

  lemma {:induction false} ScanSingleBlanks(input: seq<char>, i: nat, st: TrimState)
    requires i <= |input|
    ensures SingleBlanks(Scan(input, true, i, st))
    decreases |input| - i
  {
    if i < |input| {
      var c := input[i];
      if c == '(' || c == ')' || st.comment || c == '\n' || c == ' ' {
        var st' := if c == '(' then st.(comment := true) else if c == ')' then st.(comment := false)
                   else if st.comment then st else if c == '\n' then st.(startline := true, newline := true)
                   else st.(wsp := true);
        ScanSingleBlanks(input, i + 1, st');
      } else {
        var next := if c == '\'' && i + 1 < |input| then i + 2 else i + 1;
        ScanSingleBlanks(input, next, Written(st, c));
        WrittenSingleBlanks(input, i, st);
      }
    }
  }

  /** One written byte (and the byte a quote copies) in front of a scan that has single blanks. */
  lemma WrittenSingleBlanks(input: seq<char>, i: nat, st: TrimState)
    requires i < |input| && !st.comment
    requires input[i] !in {'(', ')', '\n', ' '}
    requires var next := if input[i] == '\'' && i + 1 < |input| then i + 2 else i + 1;
      SingleBlanks(Scan(input, true, next, Written(st, input[i])))
    ensures SingleBlanks(Scan(input, true, i, st))
  {
    var c := input[i];
    var next := if c == '\'' && i + 1 < |input| then i + 2 else i + 1;
    var copied := input[i + 1 .. next];
    var rest := Scan(input, true, next, Written(st, c));
    var head := Pending(st) + [c] + copied;
    ScanWrites(input, true, i, st);
    EmittedSingleBlanks(st, c, copied);
    SingleBlanksJoin(head, rest);
  }

  /** A written byte with its separator, and with the byte copied after it when it is a quote. */
  lemma EmittedSingleBlanks(st: TrimState, c: char, copied: seq<char>)
    requires !IsBlank(c) && |copied| <= 1 && (c != '\'' ==> copied == [])
    ensures var head := Pending(st) + [c] + copied;
      && |head| >= 1 && SingleBlanks(head)
      && (!IsBlank(head[|head| - 1]) || (|head| >= 2 && head[|head| - 2] == '\''))
  {
    var head := Pending(st) + [c] + copied;
    var p := |Pending(st)|;
    assert head[p] == c;
    if copied != [] {
      assert head[p + 1] == copied[0] && |head| == p + 2;
    }
  }

  /** With deindent, blanks at the end of the input are never written. */
  lemma {:induction false} TrailingBlanksDropped(input: seq<char>, i: nat, st: TrimState)
    requires i <= |input| && forall k :: i <= k < |input| ==> IsBlank(input[k])
    ensures Scan(input, true, i, st) == []
    decreases |input| - i
  {
    if i < |input| {
      var st' := if st.comment then st else if input[i] == '\n' then st.(startline := true, newline := true)
                 else st.(wsp := true);
      TrailingBlanksDropped(input, i + 1, st');
    }
  }

  /**
   * Without deindent, spaces at the start of a line are written one for one, after the
   * pending separator, and the scan is still at the line's start afterwards.
   */
  lemma {:induction false} LeadingSpacesKept(input: seq<char>, i: nat, n: nat, st: TrimState)
    requires i + n <= |input| && n >= 1
    requires forall k :: i <= k < i + n ==> input[k] == ' '
    requires st.startline && !st.comment
    ensures Scan(input, false, i, st)
      == Pending(st) + seq(n, _ => ' ') + Scan(input, false, i + n, Written(st, ' '))
    decreases n
  {
    var st1 := Written(st, ' ');
    assert Scan(input, false, i, st) == Pending(st) + [' '] + Scan(input, false, i + 1, st1);
    if n > 1 {
      LeadingSpacesKept(input, i + 1, n - 1, st1);
      assert Pending(st1) == [];
      assert Written(st1, ' ') == st1;
      assert [' '] + seq(n - 1, _ => ' ') == seq(n, _ => ' ');
    }
  }

  /** The scan from position `k` does not look at anything before `k`. */
  lemma {:induction false} ScanLooksAhead(input: seq<char>, deindent: bool, j: nat, x: char, k: nat, st: TrimState)
    requires j < k <= |input|
    ensures Scan(input[j := x], deindent, k, st) == Scan(input, deindent, k, st)
    decreases |input| - k
  {
    if k < |input| {
      var c := input[k];
      assert input[j := x][k] == c;
      if c == '(' || c == ')' || st.comment || c == '\n' || ((deindent || !st.startline) && c == ' ') {
        var st' := if c == '(' then st.(comment := true) else if c == ')' then st.(comment := false)
                   else if st.comment then st else if c == '\n' then st.(startline := true, newline := true)
                   else st.(wsp := true);
        ScanLooksAhead(input, deindent, j, x, k + 1, st');
      } else {
        var next := if c == '\'' then (if k + 1 < |input| then k + 2 else k + 1) else k + 1;
        ScanLooksAhead(input, deindent, j, x, next, Written(st, c));
        assert input[j := x][k + 1 .. if c == '\'' then next else k + 1] == input[k + 1 .. if c == '\'' then next else k + 1];
      }
    }
  }

  /**
   * A quote read outside a comment is written with the byte after it, whatever that byte
   * is: a parenthesis, a blank or another quote is copied and has no other effect.
   */
  lemma QuoteCopiesNext(input: seq<char>, deindent: bool, i: nat, st: TrimState, x: char)
    requires i + 1 < |input| && input[i] == '\'' && !st.comment
    ensures Scan(input[i + 1 := x], deindent, i, st)
      == Pending(st) + ['\'', x] + Scan(input, deindent, i + 2, Written(st, '\''))
  {
    var input' := input[i + 1 := x];
    ScanLooksAhead(input, deindent, i + 1, x, i + 2, Written(st, '\''));
    assert input'[i] == '\'' && input'[i + 1 .. i + 2] == [x];
  }
}

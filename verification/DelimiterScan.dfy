// The hand-written delimiter scanners of the scripts (a Kotlin `${...}` body, a parenthesised
// argument list, a Kotlin block) are one automaton: a depth counter, an open quotation and an escape
// flag. This module gives that automaton and the grammar it recognises.
module DelimiterScan {
  import opened CodeUnits
  import opened Wrappers

  // Which code units open a quotation.
  datatype Quotes = Quotes(single: bool, double: bool, backtick: bool) {
    predicate Has(c: CodeUnit) {
      (single && c == SINGLE_QUOTE) || (double && c == DOUBLE_QUOTE) || (backtick && c == BACKTICK)
    }
  }

  datatype Delimiters = Delimiters(open: CodeUnit, close: CodeUnit, quotes: Quotes) {
    predicate Valid() {
      open != close && !quotes.Has(open) && !quotes.Has(close)
    }
  }

  datatype Mode = Outside | Inside(quote: CodeUnit) | Escape(quote: CodeUnit)

  datatype State = State(depth: int, mode: Mode)

  function Step(d: Delimiters, st: State, c: CodeUnit): State {
    match st.mode
    case Escape(q) => st.(mode := Inside(q))
    case Inside(q) =>
      if c == BACKSLASH then st.(mode := Escape(q))
      else if c == q then st.(mode := Outside)
      else st
    case Outside =>
      if d.quotes.Has(c) then st.(mode := Inside(c))
      else if c == d.open then st.(depth := st.depth + 1)
      else if c == d.close then st.(depth := st.depth - 1)
      else st
  }

  // The code unit c is a closing delimiter that brings the depth to zero.
  predicate Closes(d: Delimiters, st: State, c: CodeUnit) {
    st.mode == Outside && !d.quotes.Has(c) && c != d.open && c == d.close && st.depth - 1 == 0
  }

  // The position at or after i of the delimiter that brings the depth to zero.
  function ScanFrom(d: Delimiters, s: Text, i: nat, st: State): (r: Option<nat>)
    requires i <= |s|
    ensures r.Some? ==> i <= r.value < |s| && s[r.value] == d.close
    decreases |s| - i
  {
    if i == |s| then None
    else if Closes(d, st, s[i]) then Some(i)
    else ScanFrom(d, s, i + 1, Step(d, st, s[i]))
  }

  // The grammar of what may stand between two matching delimiters. Inside a quotation a backslash
  // protects the next code unit, whatever it is; elsewhere it is an ordinary code unit.

  datatype Quoted = Done | Literal(c: CodeUnit, rest: Quoted) | Escaped(c: CodeUnit, rest: Quoted)

  datatype Body =
    | Empty
    | Plain(c: CodeUnit, rest: Body)
    | Quotation(quote: CodeUnit, text: Quoted, rest: Body)
    | Nested(inner: Body, rest: Body)

  function QuotedSize(t: Quoted): nat {
    match t
    case Done => 0
    case Literal(_, rest) => 1 + QuotedSize(rest)
    case Escaped(_, rest) => 2 + QuotedSize(rest)
  }

  function Size(body: Body): nat {
    match body
    case Empty => 0
    case Plain(_, rest) => 1 + Size(rest)
    case Quotation(_, t, rest) => 2 + QuotedSize(t) + Size(rest)
    case Nested(inner, rest) => 2 + Size(inner) + Size(rest)
  }

  // The quoted text t, between two quotes q, is spelled out in s from position i.
  predicate SpellsQuoted(q: CodeUnit, s: Text, i: nat, t: Quoted)
    decreases t
  {
    match t
    case Done => i <= |s|
    case Literal(c, rest) => i < |s| && s[i] == c && c != q && c != BACKSLASH && SpellsQuoted(q, s, i + 1, rest)
    case Escaped(c, rest) => i + 1 < |s| && s[i] == BACKSLASH && s[i + 1] == c && SpellsQuoted(q, s, i + 2, rest)
  }

  // The body is spelled out in s from position i.
  predicate Spells(d: Delimiters, s: Text, i: nat, body: Body)
    decreases body
  {
    match body
    case Empty => i <= |s|
    case Plain(c, rest) =>
      && i < |s| && s[i] == c && c != d.open && c != d.close && !d.quotes.Has(c)
      && Spells(d, s, i + 1, rest)
    case Quotation(q, t, rest) =>
      var j := i + 1 + QuotedSize(t);
      && i < j < |s| && s[i] == q && d.quotes.Has(q) && SpellsQuoted(q, s, i + 1, t) && s[j] == q
      && Spells(d, s, j + 1, rest)
    case Nested(inner, rest) =>
      var j := i + 1 + Size(inner);
      && i < j < |s| && s[i] == d.open && Spells(d, s, i + 1, inner) && s[j] == d.close
      && Spells(d, s, j + 1, rest)
  }

  // The text between i and k is a balanced body.
  ghost predicate IsBody(d: Delimiters, s: Text, i: nat, k: nat) {
    exists body :: Spells(d, s, i, body) && i + Size(body) == k
  }

  lemma OneStep(d: Delimiters, s: Text, i: nat, st: State, next: State)
    requires i < |s| && !Closes(d, st, s[i]) && Step(d, st, s[i]) == next
    ensures ScanFrom(d, s, i, st) == ScanFrom(d, s, i + 1, next)
  {
  }

  lemma {:induction false} ScanOverQuoted(d: Delimiters, s: Text, i: nat, depth: int, q: CodeUnit, t: Quoted, k: nat)
    requires d.Valid() && d.quotes.Has(q) && SpellsQuoted(q, s, i, t) && k == i + QuotedSize(t)
    ensures k <= |s|
    ensures ScanFrom(d, s, i, State(depth, Inside(q))) == ScanFrom(d, s, k, State(depth, Inside(q)))
    decreases t
  {
    match t
    case Done =>
    case Literal(_, rest) => ScanOverQuoted(d, s, i + 1, depth, q, rest, k);
    case Escaped(_, rest) => ScanOverQuoted(d, s, i + 2, depth, q, rest, k);
  }

  // A step into a state, a stretch that keeps it, a step back and a stretch that keeps that.
  lemma Enclosed(d: Delimiters, s: Text, i: nat, st: State, inner: State, j: nat, k: nat)
    requires i < j < k <= |s|
    requires !Closes(d, st, s[i]) && Step(d, st, s[i]) == inner
    requires !Closes(d, inner, s[j]) && Step(d, inner, s[j]) == st
    requires ScanFrom(d, s, i + 1, inner) == ScanFrom(d, s, j, inner)
    requires ScanFrom(d, s, j + 1, st) == ScanFrom(d, s, k, st)
    ensures ScanFrom(d, s, i, st) == ScanFrom(d, s, k, st)
  {
  }

  // Scanning a body brings the automaton back to the state it started in.
  lemma {:induction false} ScanOverBody(d: Delimiters, s: Text, i: nat, depth: int, body: Body, k: nat)
    requires d.Valid() && depth >= 1 && Spells(d, s, i, body) && k == i + Size(body)
    ensures k <= |s|
    ensures ScanFrom(d, s, i, State(depth, Outside)) == ScanFrom(d, s, k, State(depth, Outside))
    decreases body, 1
  {
    match body
    case Empty =>
    case Plain(c, rest) => ScanOverPlain(d, s, i, depth, c, rest, k);
    case Quotation(q, t, rest) => ScanOverQuotation(d, s, i, depth, q, t, rest, k);
    case Nested(inner, rest) => ScanOverNested(d, s, i, depth, inner, rest, k);
  }

  lemma {:induction false} ScanOverPlain(d: Delimiters, s: Text, i: nat, depth: int, c: CodeUnit, rest: Body, k: nat)
    requires d.Valid() && depth >= 1 && Spells(d, s, i, Plain(c, rest)) && k == i + Size(Plain(c, rest))
    ensures k <= |s|
    ensures ScanFrom(d, s, i, State(depth, Outside)) == ScanFrom(d, s, k, State(depth, Outside))
    decreases Plain(c, rest), 0
  {
    ScanOverBody(d, s, i + 1, depth, rest, k);
  }

  lemma QuotationParts(d: Delimiters, s: Text, i: nat, q: CodeUnit, t: Quoted, rest: Body, j: nat, k: nat)
    requires Spells(d, s, i, Quotation(q, t, rest))
    requires k == i + Size(Quotation(q, t, rest)) && j == i + 1 + QuotedSize(t)
    ensures i < j < |s| && s[i] == q && d.quotes.Has(q) && s[j] == q && k == j + 1 + Size(rest)
    ensures SpellsQuoted(q, s, i + 1, t) && Spells(d, s, j + 1, rest)
  {
  }

  lemma {:induction false} ScanOverQuotation(
      d: Delimiters, s: Text, i: nat, depth: int, q: CodeUnit, t: Quoted, rest: Body, k: nat)
    requires d.Valid() && depth >= 1 && Spells(d, s, i, Quotation(q, t, rest)) && k == i + Size(Quotation(q, t, rest))
    ensures k <= |s|
    ensures ScanFrom(d, s, i, State(depth, Outside)) == ScanFrom(d, s, k, State(depth, Outside))
    decreases Quotation(q, t, rest), 0
  {
    hide ScanFrom, Spells, SpellsQuoted, Size, QuotedSize;
    var j := i + 1 + QuotedSize(t);
    QuotationParts(d, s, i, q, t, rest, j, k);
    ScanOverQuoted(d, s, i + 1, depth, q, t, j);
    ScanOverBody(d, s, j + 1, depth, rest, k);
    Enclosed(d, s, i, State(depth, Outside), State(depth, Inside(q)), j, k);
  }

  lemma NestedParts(d: Delimiters, s: Text, i: nat, inner: Body, rest: Body, j: nat, k: nat)
    requires Spells(d, s, i, Nested(inner, rest)) && k == i + Size(Nested(inner, rest)) && j == i + 1 + Size(inner)
    ensures i < j < |s| && s[i] == d.open && s[j] == d.close && k == j + 1 + Size(rest)
    ensures Spells(d, s, i + 1, inner) && Spells(d, s, j + 1, rest)
  {
  }

  lemma {:induction false} ScanOverNested(
      d: Delimiters, s: Text, i: nat, depth: int, inner: Body, rest: Body, k: nat)
    requires d.Valid() && depth >= 1 && Spells(d, s, i, Nested(inner, rest)) && k == i + Size(Nested(inner, rest))
    ensures k <= |s|
    ensures ScanFrom(d, s, i, State(depth, Outside)) == ScanFrom(d, s, k, State(depth, Outside))
    decreases Nested(inner, rest), 0
  {
    hide ScanFrom, Spells, Size;
    var j := i + 1 + Size(inner);
    NestedParts(d, s, i, inner, rest, j, k);
    ScanOverBody(d, s, i + 1, depth + 1, inner, j);
    ScanOverBody(d, s, j + 1, depth, rest, k);
    Enclosed(d, s, i, State(depth, Outside), State(depth + 1, Outside), j, k);
  }

  lemma {:induction false} QuotedAhead(d: Delimiters, s: Text, i: nat, depth: int, q: CodeUnit)
      returns (t: Quoted, k: nat)
    requires d.Valid() && i <= |s| && d.quotes.Has(q)
    requires ScanFrom(d, s, i, State(depth, Inside(q))).Some?
    ensures SpellsQuoted(q, s, i, t) && k == i + QuotedSize(t) && k < |s| && s[k] == q
    ensures ScanFrom(d, s, i, State(depth, Inside(q))) == ScanFrom(d, s, k + 1, State(depth, Outside))
    decreases |s| - i
  {
    if s[i] == BACKSLASH {
      t, k := QuotedAhead(d, s, i + 2, depth, q);
      t := Escaped(s[i + 1], t);
    } else if s[i] == q {
      t, k := Done, i;
    } else {
      t, k := QuotedAhead(d, s, i + 1, depth, q);
      t := Literal(s[i], t);
    }
  }

  // A scan that succeeds has read a body up to the delimiter that closes it.
  lemma {:induction false} BodyAhead(d: Delimiters, s: Text, i: nat, depth: int) returns (body: Body, k: nat)
    requires d.Valid() && i <= |s| && depth >= 1
    requires ScanFrom(d, s, i, State(depth, Outside)).Some?
    ensures Spells(d, s, i, body) && k == i + Size(body) && k < |s| && s[k] == d.close
    ensures ScanFrom(d, s, i, State(depth, Outside))
         == if depth == 1 then Some(k) else ScanFrom(d, s, k + 1, State(depth - 1, Outside))
    decreases |s| - i
  {
    var st := State(depth, Outside);
    if Closes(d, st, s[i]) {
      return Empty, i;
    }
    OneStep(d, s, i, st, Step(d, st, s[i]));
    hide ScanFrom;
    if d.quotes.Has(s[i]) {
      var t, j := QuotedAhead(d, s, i + 1, depth, s[i]);
      body, k := BodyAhead(d, s, j + 1, depth);
      body := Quotation(s[i], t, body);
    } else if s[i] == d.open {
      var inner, j := BodyAhead(d, s, i + 1, depth + 1);
      body, k := BodyAhead(d, s, j + 1, depth);
      body := Nested(inner, body);
    } else if s[i] == d.close {
      body, k := Empty, i;
    } else {
      body, k := BodyAhead(d, s, i + 1, depth);
      body := Plain(s[i], body);
    }
  }

  // The scanner stops at k exactly when a balanced body lies before a closing delimiter at k.
  lemma ScanRecognisesBodies(d: Delimiters, s: Text, i: nat, k: nat)
    requires d.Valid() && i <= |s|
    ensures ScanFrom(d, s, i, State(1, Outside)) == Some(k) <==> k < |s| && s[k] == d.close && IsBody(d, s, i, k)
  {
    if ScanFrom(d, s, i, State(1, Outside)) == Some(k) {
      var body, _ := BodyAhead(d, s, i, 1);
    }
    if k < |s| && s[k] == d.close && IsBody(d, s, i, k) {
      var body :| Spells(d, s, i, body) && i + Size(body) == k;
      ScanOverBody(d, s, i, 1, body, k);
    }
  }
}

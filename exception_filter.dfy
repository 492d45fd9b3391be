/** `QueryFailedExceptionFilter`: the HTTP error body for a failed MySQL
    query, chosen by the driver's `errno`, with the column, key, value and
    table names read out of `sqlMessage`. */
module ExceptionFilter {
  import opened Common

  /** The part of the MySQL driver error the filter reads. */
  datatype MySqlError = MySqlError(errno: int, sqlMessage: string)

  /** The JSON body; `detail` is left out when `None`. */
  datatype ErrorResponse = ErrorResponse(statusCode: int, message: string, error: string, detail: Option<string>)

  /** The `errorCodes` table. */
  function ErrorCodeName(errno: int): Option<string> {
    if errno == 1062 then Some("DUPLICATE_ENTRY")
    else if errno == 1451 then Some("FOREIGN_KEY_VIOLATION_DELETE")
    else if errno == 1452 then Some("FOREIGN_KEY_VIOLATION_INSERT")
    else if errno == 1054 then Some("UNKNOWN_COLUMN")
    else if errno == 1146 then Some("TABLE_NOT_EXISTS")
    else if errno == 1216 then Some("FOREIGN_KEY_CONSTRAINT_ADD")
    else if errno == 1217 then Some("FOREIGN_KEY_CONSTRAINT_DELETE")
    else if errno == 1364 then Some("FIELD_NOT_NULL")
    else if errno == 1406 then Some("DATA_TOO_LONG")
    else if errno == 1265 then Some("DATA_TRUNCATED")
    else None
  }

  /** The characters the regular-expression `.` does not match. */
  predicate IsLineTerminator(c: char) {
    c == '\n' || c == '\r' || c == '\U{2028}' || c == '\U{2029}'
  }

  /** The length of the lazy `(.+?)` followed by `close` at the start of `t`,
      scanning from position `k`. */
  function CloseAt(t: string, k: nat, close: char): (r: Option<nat>)
    requires 1 <= k
    requires forall i :: 0 <= i < k && i < |t| ==> !IsLineTerminator(t[i])
    ensures r.Some? ==> k <= r.value < |t| && t[r.value] == close
    ensures r.Some? ==> forall i :: k <= i < r.value ==> t[i] != close
    ensures r.Some? ==> forall i :: 0 <= i < r.value ==> !IsLineTerminator(t[i])
    ensures r.None? ==> forall n :: k <= n < |t| && t[n] == close ==> exists i :: k <= i < n && IsLineTerminator(t[i])
    decreases |t| - k
  {
    if k >= |t| then None
    else if t[k] == close then Some(k)
    else if IsLineTerminator(t[k]) then None
    else CloseAt(t, k + 1, close)
  }

  /** `(.+?)close` matched at the start of `t`: at least one character, no
      line terminator, up to the first `close` after the first character. */
  function Capture(t: string, close: char): (r: Option<string>)
    ensures r.Some? ==> 1 <= |r.value| < |t| && t[..|r.value|] == r.value && t[|r.value|] == close
    ensures r.Some? ==> forall i :: 1 <= i < |r.value| ==> r.value[i] != close
    ensures r.Some? ==> forall i :: 0 <= i < |r.value| ==> !IsLineTerminator(r.value[i])
    ensures r.None? ==> t == [] || IsLineTerminator(t[0])
                        || forall n :: 1 <= n < |t| && t[n] == close ==> exists i :: 1 <= i < n && IsLineTerminator(t[i])
  {
    if t == [] || IsLineTerminator(t[0]) then None
    else match CloseAt(t, 1, close)
      case None => None
      case Some(n) => Some(t[..n])
  }

  /** `s.match(/open(.+?)close/)?.[1]`: the capture at the leftmost position
      from `i` on where the whole pattern matches. */
  function FirstMatch(s: string, open: string, close: char, i: nat): (r: Option<string>)
    ensures r.Some? ==> exists j :: && i <= j <= |s| - |open| && OccursAt(s, open, j) && Capture(s[j + |open|..], close) == r
                                    && forall j' :: i <= j' < j && OccursAt(s, open, j') ==> Capture(s[j' + |open|..], close).None?
    ensures r.None? ==> forall j :: i <= j <= |s| - |open| && OccursAt(s, open, j) ==> Capture(s[j + |open|..], close).None?
    decreases |s| - i
  {
    if i + |open| > |s| then None
    else if OccursAt(s, open, i) && Capture(s[i + |open|..], close).Some? then Capture(s[i + |open|..], close)
    else
      var r := FirstMatch(s, open, close, i + 1);
      LeftmostFromNext(s, open, close, i, r);
      r
  }

  /** A position where the pattern does not match keeps the leftmost match
      of the rest leftmost. */
  lemma LeftmostFromNext(s: string, open: string, close: char, i: nat, r: Option<string>)
    requires i + |open| <= |s| && !(OccursAt(s, open, i) && Capture(s[i + |open|..], close).Some?)
    requires r.Some? ==> exists j :: && i + 1 <= j <= |s| - |open| && OccursAt(s, open, j) && Capture(s[j + |open|..], close) == r
                                    && forall j' :: i + 1 <= j' < j && OccursAt(s, open, j') ==> Capture(s[j' + |open|..], close).None?
    ensures r.Some? ==> exists j :: && i <= j <= |s| - |open| && OccursAt(s, open, j) && Capture(s[j + |open|..], close) == r
                                   && forall j' :: i <= j' < j && OccursAt(s, open, j') ==> Capture(s[j' + |open|..], close).None?
  {
    if r.Some? {
      var j :| && i + 1 <= j <= |s| - |open| && OccursAt(s, open, j) && Capture(s[j + |open|..], close) == r
               && forall j' :: i + 1 <= j' < j && OccursAt(s, open, j') ==> Capture(s[j' + |open|..], close).None?;
      assert forall j' :: i <= j' < j && OccursAt(s, open, j') ==> Capture(s[j' + |open|..], close).None?;
    }
  }

  function Match(s: string, open: string, close: char): Option<string> {
    FirstMatch(s, open, close, 0)
  }

  /** A message that starts with the opener, a capture and the closer yields
      that capture when the capture holds no closer after its first
      character and no line terminator. */
  lemma MatchAtStart(s: string, open: string, value: string, close: char, rest: string)
    requires s == open + value + [close] + rest
    requires 1 <= |value| && forall i :: 1 <= i < |value| ==> value[i] != close
    requires forall i :: 0 <= i < |value| ==> !IsLineTerminator(value[i])
    ensures Match(s, open, close) == Some(value)
  {
    var t := s[|open|..];
    assert t == value + [close] + rest;
    assert OccursAt(s, open, 0);
    assert CloseAt(t, 1, close) == Some(|value|) by {
      CloseAtRun(t, 1, |value|, close);
    }
    assert t[..|value|] == value;
  }

  lemma {:induction false} CloseAtRun(t: string, k: nat, n: nat, close: char)
    requires 1 <= k <= n < |t| && t[n] == close
    requires forall i :: k <= i < n ==> t[i] != close && !IsLineTerminator(t[i])
    requires forall i :: 0 <= i < k ==> !IsLineTerminator(t[i])
    ensures CloseAt(t, k, close) == Some(n)
    decreases n - k
  {
    if k < n {
      CloseAtRun(t, k + 1, n, close);
    }
  }

  /** `m ? m[1] : fallback` for `m = s.match(/open(.+?)close/)`: `v` is the
      capture at the leftmost position where the opener occurs and a capture
      follows, or `fallback` when no position yields one. */
  predicate ShownOr(s: string, open: string, close: char, fallback: string, v: string) {
    || (exists j :: && 0 <= j <= |s| - |open| && OccursAt(s, open, j) && Capture(s[j + |open|..], close) == Some(v)
                    && forall j' :: 0 <= j' < j && OccursAt(s, open, j') ==> Capture(s[j' + |open|..], close).None?)
    || (&& v == fallback
        && forall j :: 0 <= j <= |s| - |open| && OccursAt(s, open, j) ==> Capture(s[j + |open|..], close).None?)
  }

  /** `extractDuplicatedKey`: the key name (`column`) and the duplicated
      value, each `'unknown'` when the message does not show it. */
  function ExtractDuplicatedKey(sqlMessage: string): (r: (string, string))
    ensures ShownOr(sqlMessage, "for key '", '\'', "unknown", r.0)
    ensures ShownOr(sqlMessage, "Duplicate entry '", '\'', "unknown", r.1)
  {
    (OrUnknown(Match(sqlMessage, "for key '", '\'')), OrUnknown(Match(sqlMessage, "Duplicate entry '", '\'')))
  }

  function OrUnknown(m: Option<string>): string {
    if m.Some? then m.value else "unknown"
  }

  /** `split(sep)`: the pieces between separators, one more than there are
      separators. */
  function Split(s: string, sep: char): (r: seq<string>)
    ensures |r| >= 1
  {
    if s == [] then [[]]
    else
      var rest := Split(s[1..], sep);
      if s[0] == sep then [[]] + rest
      else [[s[0]] + rest[0]] + rest[1..]
  }

  function LowerAll(words: seq<string>): (r: seq<string>)
    ensures |r| == |words|
  {
    if words == [] then [] else [Lower(words[0])] + LowerAll(words[1..])
  }

  /** `join(sep)`. */
  function Join(words: seq<string>, sep: string): string {
    if words == [] then []
    else if |words| == 1 then words[0]
    else words[0] + sep + Join(words[1..], sep)
  }

  /** `replace(/^UQ_|^FK_|^IDX_/, '')`: one leading prefix removed. */
  function StripPrefix(c: string): string {
    if StartsWith(c, "UQ_") || StartsWith(c, "FK_") then c[3..]
    else if StartsWith(c, "IDX_") then c[4..]
    else c
  }

  /** `formatColumnName`: an index name reads as "unique constraint"; any
      other name loses its `UQ_` or `FK_` prefix, and each `_` becomes a
      space and every letter lower case. */
  function FormatColumnName(columnName: string): (r: string)
    ensures StartsWith(columnName, "IDX_") ==> r == "unique constraint"
    ensures !StartsWith(columnName, "IDX_") ==> r == Spaced(StripPrefix(columnName))
  {
    if StartsWith(columnName, "IDX_") then "unique constraint"
    else
      SplitLowerJoin(StripPrefix(columnName));
      Join(LowerAll(Split(StripPrefix(columnName), '_')), " ")
  }

  /** The reference reading of split-lower-join: each `_` becomes a space and
      every other character is lower-cased. */
  function Spaced(s: string): (r: string)
    ensures |r| == |s|
    ensures forall i :: 0 <= i < |s| ==> r[i] == if s[i] == '_' then ' ' else LowerChar(s[i])
  {
    if s == [] then [] else [if s[0] == '_' then ' ' else LowerChar(s[0])] + Spaced(s[1..])
  }

  /** Splitting on `_`, lower-casing each word and joining with spaces is
      the character-wise reading. */
  lemma {:induction false} SplitLowerJoin(s: string)
    ensures Join(LowerAll(Split(s, '_')), " ") == Spaced(s)
  {
    if s != [] {
      SplitLowerJoin(s[1..]);
      if s[0] == '_' {
        JoinAfterSeparator(s);
      } else {
        JoinAfterLetter(s);
      }
    }
  }

  /** A leading `_` starts an empty word: the join puts a space first. */
  lemma JoinAfterSeparator(s: string)
    requires s != [] && s[0] == '_'
    requires Join(LowerAll(Split(s[1..], '_')), " ") == Spaced(s[1..])
    ensures Join(LowerAll(Split(s, '_')), " ") == Spaced(s)
  {
    var rest := Split(s[1..], '_');
    assert Split(s, '_') == [[]] + rest;
    var lowered := LowerAll([[]] + rest);
    assert lowered == [[]] + LowerAll(rest);
    assert lowered[1..] == LowerAll(rest);
    assert Join(lowered, " ") == [] + " " + Join(LowerAll(rest), " ");
  }

  /** A leading letter joins the first word. */
  lemma JoinAfterLetter(s: string)
    requires s != [] && s[0] != '_'
    requires Join(LowerAll(Split(s[1..], '_')), " ") == Spaced(s[1..])
    ensures Join(LowerAll(Split(s, '_')), " ") == Spaced(s)
  {
    var rest := Split(s[1..], '_');
    var w := [s[0]] + rest[0];
    assert Split(s, '_') == [w] + rest[1..];
    LowerAllCons(w, rest[1..]);
    assert rest == [rest[0]] + rest[1..];
    LowerAllCons(rest[0], rest[1..]);
    LowerAppend([s[0]], rest[0]);
    assert Lower([s[0]]) == [LowerChar(s[0])];
    JoinConsHead(LowerChar(s[0]), Lower(rest[0]), LowerAll(rest[1..]));
    assert Spaced(s) == [LowerChar(s[0])] + Spaced(s[1..]);
  }

  lemma LowerAllCons(w: string, tail: seq<string>)
    ensures LowerAll([w] + tail) == [Lower(w)] + LowerAll(tail)
  {
    assert ([w] + tail)[1..] == tail;
  }

  /** A character in front of the first word comes out in front of the join. */
  lemma JoinConsHead(c: char, x: string, tail: seq<string>)
    ensures Join([[c] + x] + tail, " ") == [c] + Join([x] + tail, " ")
  {
    if tail != [] {
      assert ([[c] + x] + tail)[1..] == tail;
      assert ([x] + tail)[1..] == tail;
    }
  }

  /** The formatted name holds no `_`, and formatting it again changes nothing. */
  lemma FormatColumnNameLaws(columnName: string)
    ensures forall i :: 0 <= i < |FormatColumnName(columnName)| ==> FormatColumnName(columnName)[i] != '_'
    ensures FormatColumnName(FormatColumnName(columnName)) == FormatColumnName(columnName)
  {
    if StartsWith(columnName, "IDX_") {
      SpacedFixed("unique constraint");
    } else {
      var x := StripPrefix(columnName);
      SplitLowerJoin(x);
      SpacedFixed(Spaced(x));
    }
  }

  /** A name without `_` and without upper-case letters passes unchanged. */
  lemma SpacedFixed(f: string)
    requires forall i :: 0 <= i < |f| ==> f[i] != '_' && LowerChar(f[i]) == f[i]
    ensures FormatColumnName(f) == f
  {
    assert !StartsWith(f, "IDX_") && !StartsWith(f, "UQ_") && !StartsWith(f, "FK_") by {
      assert |f| >= 3 ==> f[2] != '_';
    }
    SplitLowerJoin(f);
    assert Spaced(f) == f;
  }

  /** `formatConstraintMessage`: the fixed sentence naming, in quotes, the
      table after the first ``REFERENCES ` `` that yields a capture, or
      'referenced'. */
  function FormatConstraintMessage(sqlMessage: string): (r: string)
    ensures StartsWith(r, ConstraintSentence) && |r| > |ConstraintSentence| && r[|r| - 1] == '\''
    ensures ShownOr(sqlMessage, "REFERENCES `", '`', "referenced", r[|ConstraintSentence|..|r| - 1])
  {
    var table := if Match(sqlMessage, "REFERENCES `", '`').Some? then Match(sqlMessage, "REFERENCES `", '`').value else "referenced";
    ConstraintSentence + table + "'"
  }

  const ConstraintSentence := "Operation cannot be completed because of a relationship constraint with table '"

  /** A foreign-key message names the referenced table after the first
      ``REFERENCES ` ``: that table, when it is not empty and holds no backtick,
      is the one the sentence names. */
  lemma ConstraintMessageNamesTable(prefix: string, table: string, rest: string)
    requires 1 <= |table| && forall i :: 0 <= i < |table| ==> table[i] != '`' && !IsLineTerminator(table[i])
    requires forall j :: 0 <= j < |prefix| ==> !OccursAt(prefix + "REFERENCES `", "REFERENCES `", j)
    ensures FormatConstraintMessage(prefix + "REFERENCES `" + table + "`" + rest) == ConstraintSentence + table + "'"
  {
    var open := "REFERENCES `";
    var head := prefix + open;
    var tail := table + "`" + rest;
    var s := head + tail;
    assert s == prefix + "REFERENCES `" + table + "`" + rest;
    var at := |prefix|;
    assert OccursAt(s, open, at) by {
      SliceInMiddle(prefix, open, tail, at, |open|);
    }
    var t := s[at + |open|..];
    assert t == tail;
    CloseAtRun(t, 1, |table|, '`');
    assert t[..|table|] == table;
    NoOpenerBefore(prefix, open, tail);
    FirstMatchSkips(s, open, '`', 0, at);
    assert Match(s, open, '`') == Some(table);
  }

  /** An opener that first occurs at the end of `prefix + open` occurs nowhere
      earlier in a longer string. */
  lemma NoOpenerBefore(prefix: string, open: string, tail: string)
    requires forall j :: 0 <= j < |prefix| ==> !OccursAt(prefix + open, open, j)
    ensures forall j :: 0 <= j < |prefix| ==> !OccursAt(prefix + open + tail, open, j)
  {
    var head := prefix + open;
    forall j | 0 <= j < |prefix|
      ensures !OccursAt(head + tail, open, j)
    {
      assert !OccursAt(head, open, j);
      SliceInMiddle([], head, tail, j, |open|);
      assert [] + head + tail == head + tail;
    }
  }

  /** Without ``REFERENCES ` `` in the message the sentence names the table
      'referenced'. */
  lemma ConstraintMessageFallback(sqlMessage: string)
    requires !Contains(sqlMessage, "REFERENCES `")
    ensures FormatConstraintMessage(sqlMessage) == ConstraintSentence + "referenced'"
  {
  }

  /** `${m?.[1]}` when the regular expression does not match. */
  function Shown(m: Option<string>): string {
    if m.Some? then m.value else "undefined"
  }

  /** `createErrorResponse`; `development` is `NODE_ENV === 'development'`. */
  function CreateErrorResponse(e: MySqlError, development: bool): (r: ErrorResponse)
    ensures r.statusCode == 409 <==> e.errno == 1062 || e.errno == 1451 || e.errno == 1452
    ensures r.statusCode == 400 <==> e.errno == 1054 || e.errno == 1364 || e.errno == 1406
    ensures r.statusCode == 409 || r.statusCode == 400 || r.statusCode == 500
    ensures r.statusCode == 500 ==> r.detail == (if development then Some(e.sqlMessage) else None)
    ensures r.statusCode == 500 ==>
              r.message == "Database error: " + (if ErrorCodeName(e.errno).Some? then ErrorCodeName(e.errno).value else "Unknown error")
  {
    if e.errno == 1062 then
      var key := ExtractDuplicatedKey(e.sqlMessage);
      ErrorResponse(409, "Duplicate entry for " + FormatColumnName(key.0), "Conflict",
                    Some("The value '" + key.1 + "' already exists."))
    else if e.errno == 1451 || e.errno == 1452 then
      ErrorResponse(409, "Foreign key constraint violation", "Constraint Violation",
                    Some(FormatConstraintMessage(e.sqlMessage)))
    else if e.errno == 1054 then
      ErrorResponse(400, "Invalid column reference", "Bad Request",
                    Some("Column '" + Shown(Match(e.sqlMessage, "Unknown column '", '\'')) + "' does not exist"))
    else if e.errno == 1364 then
      ErrorResponse(400, "Missing required field", "Bad Request",
                    Some("The field '" + Shown(Match(e.sqlMessage, "Field '", '\'')) + "' cannot be null"))
    else if e.errno == 1406 then
      ErrorResponse(400, "Data too long", "Bad Request",
                    Some("The value for '" + Shown(Match(e.sqlMessage, "Data too long for column '", '\'')) + "' exceeds the maximum length"))
    else
      var name := if ErrorCodeName(e.errno).Some? then ErrorCodeName(e.errno).value else "Unknown error";
      ErrorResponse(500, "Database error: " + name, "Internal Server Error", if development then Some(e.sqlMessage) else None)
  }

  /** The duplicate-entry body names the formatted key and quotes the value
      of a message of MySQL's shape, when the value holds no quote and does
      not end in `for key `. */
  lemma DuplicateEntryResponse(value: string, key: string, development: bool)
    requires 1 <= |value| && forall i :: 0 <= i < |value| ==> value[i] != '\'' && !IsLineTerminator(value[i])
    requires 1 <= |key| && forall i :: 0 <= i < |key| ==> key[i] != '\'' && !IsLineTerminator(key[i])
    requires !Contains(value + "'", "for key '")
    ensures var msg := "Duplicate entry '" + value + "' for key '" + key + "'";
            CreateErrorResponse(MySqlError(1062, msg), development) ==
              ErrorResponse(409, "Duplicate entry for " + FormatColumnName(key), "Conflict",
                            Some("The value '" + value + "' already exists."))
  {
    var msg := "Duplicate entry '" + value + "' for key '" + key + "'";
    var rest := " for key '" + key + "'";
    MatchAtStart(msg, "Duplicate entry '", value, '\'', rest);
    KeyFound(value, key);
    assert ExtractDuplicatedKey(msg) == (key, value);
  }

  /** The `for key '` pattern first matches right after the value. */
  lemma KeyFound(value: string, key: string)
    requires forall i :: 0 <= i < |value| ==> value[i] != '\''
    requires 1 <= |key| && forall i :: 0 <= i < |key| ==> key[i] != '\'' && !IsLineTerminator(key[i])
    requires !Contains(value + "'", "for key '")
    ensures Match("Duplicate entry '" + value + "' for key '" + key + "'", "for key '", '\'') == Some(key)
  {
    var msg := "Duplicate entry '" + value + "' for key '" + key + "'";
    var at := 19 + |value|;
    assert msg[at..] == "for key '" + key + "'";
    assert msg[at..][9..] == key + "'";
    assert Capture(key + "'", '\'') == Some(key) by {
      CloseAtRun(key + "'", 1, |key|, '\'');
      assert (key + "'")[..|key|] == key;
    }
    assert OccursAt(msg, "for key '", at);
    forall j | 0 <= j < at ensures !OccursAt(msg, "for key '", j) {
      NoEarlierKeyOpener(value, key, j);
    }
    FirstMatchSkips(msg, "for key '", '\'', 0, at);
  }

  /** Before the key, quotes stand only at the end of the fixed prefix and
      right after the value. */
  lemma QuotePositions(value: string, key: string, k: int)
    requires forall i :: 0 <= i < |value| ==> value[i] != '\''
    requires 0 <= k < 27 + |value|
    ensures var msg := "Duplicate entry '" + value + "' for key '" + key + "'";
            msg[k] == '\'' ==> k == 16 || k == 17 + |value|
  {
    var msg := "Duplicate entry '" + value + "' for key '" + key + "'";
    if k < 17 {
      assert msg[k] == "Duplicate entry '"[k];
    } else if k < 17 + |value| {
      assert msg[k] == value[k - 17];
    } else if k >= 19 + |value| {
      assert msg[k] == "for key '"[k - 19 - |value|];
    }
  }

  /** The key opener does not occur before the position right after the
      value: its `'` would fall on one of the two earlier quotes. */
  lemma NoEarlierKeyOpener(value: string, key: string, j: int)
    requires forall i :: 0 <= i < |value| ==> value[i] != '\''
    requires !Contains(value + "'", "for key '")
    requires 0 <= j < 19 + |value|
    ensures var msg := "Duplicate entry '" + value + "' for key '" + key + "'";
            j <= |msg| - 9 ==> !OccursAt(msg, "for key '", j)
  {
    var msg := "Duplicate entry '" + value + "' for key '" + key + "'";
    var open := "for key '";
    if j <= |msg| - 9 {
      QuotePositions(value, key, j + 8);
      assert msg[j..j + 9][0] == msg[j] && msg[j..j + 9][8] == msg[j + 8];
      assert forall i :: 0 <= i < 17 ==> msg[i] == "Duplicate entry '"[i];
      if 17 <= j && j + 9 <= 18 + |value| {
        assert msg == "Duplicate entry '" + (value + "'") + (" for key '" + key + "'");
        SliceInMiddle("Duplicate entry '", value + "'", " for key '" + key + "'", j, 9);
        assert OccursAt(value + "'", open, j - 17) == (msg[j..j + 9] == open);
      }
    }
  }

  /** A slice that lies inside the middle part of a concatenation is a slice
      of that part. */
  lemma SliceInMiddle(p: string, t: string, q: string, j: int, n: nat)
    requires |p| <= j && j + n <= |p| + |t|
    ensures (p + t + q)[j..j + n] == t[j - |p|..j - |p| + n]
  {
    var slice := (p + t + q)[j..j + n];
    var part := t[j - |p|..j - |p| + n];
    assert forall i :: 0 <= i < n ==> slice[i] == part[i];
  }

  /** The leftmost match is found at `at` when nothing matches before it. */
  lemma {:induction false} FirstMatchSkips(s: string, open: string, close: char, i: nat, at: nat)
    requires i <= at <= |s| - |open| && OccursAt(s, open, at) && Capture(s[at + |open|..], close).Some?
    requires forall j :: i <= j < at ==> !OccursAt(s, open, j)
    ensures FirstMatch(s, open, close, i) == Capture(s[at + |open|..], close)
    decreases at - i
  {
    if i < at {
      assert !OccursAt(s, open, i);
      assert FirstMatch(s, open, close, i) == FirstMatch(s, open, close, i + 1);
      FirstMatchSkips(s, open, close, i + 1, at);
    } else {
      assert OccursAt(s, open, i) && Capture(s[i + |open|..], close).Some?;
    }
  }
}

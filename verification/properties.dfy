/** The per-line step of loading a `key=value` properties file into the
    value store: the line is split on every '=' and must give a key and a
    value. Reading the file is outside the model. */
module Properties {
  import opened Base
  import opened Descriptors

  /** strings.Split(s, string(sep)): the pieces between occurrences of sep,
      one more piece than there are occurrences. */
  function Split(s: string, sep: char): (parts: seq<string>)
    ensures |parts| >= 1
    decreases |s|
  {
    if s == [] then [""]
    else
      var rest := Split(s[1..], sep);
      if s[0] == sep then [""] + rest else [[s[0]] + rest[0]] + rest[1..]
  }

  /** Number of occurrences of c in s. */
  function Count(c: char, s: string): nat {
    if s == [] then 0 else (if s[0] == c then 1 else 0) + Count(c, s[1..])
  }

  /** The pieces joined back with the separator. */
  function Join(parts: seq<string>, sep: char): string
    requires |parts| >= 1
  {
    if |parts| == 1 then parts[0] else parts[0] + [sep] + Join(parts[1..], sep)
  }

  /** Split gives one piece more than there are separators, no piece holds
      the separator, and joining the pieces restores the string. */
  lemma {:induction false} SplitProperties(s: string, sep: char)
    ensures |Split(s, sep)| == Count(sep, s) + 1
    ensures forall k :: 0 <= k < |Split(s, sep)| ==> sep !in Split(s, sep)[k]
    ensures Join(Split(s, sep), sep) == s
    decreases |s|
  {
    if s != [] {
      SplitProperties(s[1..], sep);
      var rest := Split(s[1..], sep);
      if s[0] == sep {
        assert Split(s, sep)[1..] == rest;
        assert s == [sep] + s[1..];
      } else {
        var parts := Split(s, sep);
        assert parts[1..] == rest[1..];
        forall k | 0 <= k < |parts| ensures sep !in parts[k] {
          if k > 0 {
            assert parts[k] == rest[k];
          }
        }
        if |rest| == 1 {
          assert s == [s[0]] + rest[0];
        } else {
          assert Join(parts, sep) == parts[0] + [sep] + Join(rest[1..], sep);
          assert Join(rest, sep) == rest[0] + [sep] + Join(rest[1..], sep);
          assert s == [s[0]] + s[1..];
        }
      }
    }
  }

  /** What a line does as the loader is written: the guard rejects no pieces
      or more than two, then the second piece is read as the value. */
  datatype LineOutcome =
    | Malformed                      // the "Invalid properties line" panic
    | IndexOutOfRange                // a runtime panic reading the missing second piece
    | Entry(key: string, value: string)

  function LineAsWritten(line: string): (r: LineOutcome)
    ensures r == IndexOutOfRange <==> '=' !in line
    ensures r == Malformed <==> Count('=', line) >= 2
    ensures r.Entry? ==> '=' !in r.key && '=' !in r.value && line == r.key + "=" + r.value
  {
    SplitProperties(line, '=');
    CountZeroIff('=', line);
    var parts := Split(line, '=');
    assert |parts| == 2 ==> Join(parts, '=') == parts[0] + "=" + Join(parts[1..], '=');
    if |parts| == 0 || |parts| > 2 then Malformed
    else if |parts| < 2 then IndexOutOfRange
    else Entry(parts[0], parts[1])
  }

  /** As written, every line without '=' (a blank line too) passes the guard
      and then reads past the end of the pieces; the guard's `== 0` test
      never fires. */
  lemma {:induction false} LineWithoutSeparatorEscapesGuard(line: string)
    requires '=' !in line
    ensures LineAsWritten(line) == IndexOutOfRange
  {
  }

  /** No occurrence of c is a count of zero. */
  lemma {:induction false} CountZeroIff(c: char, s: string)
    ensures Count(c, s) == 0 <==> c !in s
  {
    if s != [] {
      CountZeroIff(c, s[1..]);
      assert s == [s[0]] + s[1..];
    }
  }

  /** Concrete instance: the line "port". */
  lemma {:induction false} PortLineEscapesGuard()
    ensures LineAsWritten("port") == IndexOutOfRange
  {
    LineWithoutSeparatorEscapesGuard("port");
  }

  datatype LineError = NoSeparator | TooManySeparators

  /** The corrected line step: exactly one '=' separates key and value. */
  function ParseLine(line: string): (r: Result<(string, string), LineError>)
    ensures r.Ok? ==> '=' !in r.value.0 && '=' !in r.value.1 && line == r.value.0 + "=" + r.value.1
    ensures r == Err(NoSeparator) <==> '=' !in line
  {
    SplitProperties(line, '=');
    var parts := Split(line, '=');
    if |parts| < 2 then
      Err(NoSeparator)
    else if |parts| > 2 then
      assert '=' in line by {
        if '=' !in line { CountZeroIff('=', line); }
      }
      Err(TooManySeparators)
    else Ok((parts[0], parts[1]))
  }

  /** Round trip: a key and a value without '=' are read back from their line. */
  lemma {:induction false} ParseLineRoundTrip(key: string, value: string)
    requires '=' !in key && '=' !in value
    ensures ParseLine(key + "=" + value) == Ok((key, value))
  {
    var line := key + "=" + value;
    assert line == key + ("=" + value);
    CountAppend('=', key, "=" + value);
    CountAppend('=', "=", value);
    CountZeroIff('=', key);
    CountZeroIff('=', value);
    assert Count('=', line) == 1;
    SplitProperties(line, '=');
    var r := ParseLine(line);
    ParseLineUnique(key, value, r.value.0, r.value.1);
  }

  lemma {:induction false} CountAppend(c: char, s: string, t: string)
    ensures Count(c, s + t) == Count(c, s) + Count(c, t)
  {
    if s == [] {
      assert s + t == t;
    } else {
      CountAppend(c, s[1..], t);
      assert (s + t)[0] == s[0];
      assert (s + t)[1..] == s[1..] + t;
    }
  }

  /** Position of the first c in s (|s| when there is none). */
  function FirstIndex(c: char, s: string): nat {
    if s == [] || s[0] == c then 0 else 1 + FirstIndex(c, s[1..])
  }

  lemma {:induction false} FirstIndexAfter(c: char, k: string, rest: string)
    requires c !in k
    ensures FirstIndex(c, k + [c] + rest) == |k|
  {
    if k != [] {
      assert (k + [c] + rest)[1..] == k[1..] + [c] + rest;
      FirstIndexAfter(c, k[1..], rest);
    }
  }

  /** A line with one separator has one reading. */
  lemma {:induction false} ParseLineUnique(k1: string, v1: string, k2: string, v2: string)
    requires '=' !in k1 && '=' !in v1 && '=' !in k2 && '=' !in v2
    requires k1 + "=" + v1 == k2 + "=" + v2
    ensures k1 == k2 && v1 == v2
  {
    var s := k1 + "=" + v1;
    FirstIndexAfter('=', k1, v1);
    FirstIndexAfter('=', k2, v2);
    assert k1 == s[..|k1|] == k2;
    assert v1 == s[|k1| + 1..] == v2;
  }

  /** On well-formed lines the corrected step agrees with the loader as written. */
  lemma {:induction false} ParseLineAgrees(line: string)
    requires ParseLine(line).Ok?
    ensures LineAsWritten(line) == Entry(ParseLine(line).value.0, ParseLine(line).value.1)
  {
  }

  /** The value store after loading lines in order, and the first line that
      is not a `key=value` pair, if any. */
  datatype Loaded = Loaded(store: map<string, Val>, bad: Option<string>)

  /** Loading lines into a store: each line's key is set to its value as a
      string, a later line (or a load) overriding an earlier value without
      complaint; the first malformed line stops the load, and the lines
      before it stay loaded. */
  function Load(store: map<string, Val>, lines: seq<string>): (r: Loaded)
    decreases |lines|
    ensures r.bad.None? ==> store.Keys <= r.store.Keys
    ensures r.bad.Some? ==> r.bad.value in lines && ParseLine(r.bad.value).Err?
  {
    if lines == [] then Loaded(store, None)
    else
      match ParseLine(lines[0])
      case Err(_) => Loaded(store, Some(lines[0]))
      case Ok((k, v)) =>
        var rest := Load(store[k := StrVal(v)], lines[1..]);
        assert rest.bad.Some? ==> rest.bad.value in lines by {
          if rest.bad.Some? {
            assert lines == [lines[0]] + lines[1..];
          }
        }
        rest
  }

  /** Loading from line i on: line i first, then the lines after it. */
  lemma {:induction false} LoadStep(store: map<string, Val>, lines: seq<string>, i: nat)
    requires i < |lines|
    ensures Load(store, lines[i..]) ==
              match ParseLine(lines[i])
              case Err(_) => Loaded(store, Some(lines[i]))
              case Ok((k, v)) => Load(store[k := StrVal(v)], lines[i + 1..])
  {
    assert lines[i..][0] == lines[i] && lines[i..][1..] == lines[i + 1..];
  }

  /** A load succeeds exactly when every line is a `key=value` pair. */
  lemma {:induction false} LoadSucceeds(store: map<string, Val>, lines: seq<string>)
    decreases |lines|
    ensures Load(store, lines).bad.None? <==> forall i :: 0 <= i < |lines| ==> ParseLine(lines[i]).Ok?
  {
    if lines != [] {
      match ParseLine(lines[0])
      case Err(_) =>
      case Ok((k, v)) =>
        LoadSucceeds(store[k := StrVal(v)], lines[1..]);
        assert forall i :: 1 <= i < |lines| ==> lines[i] == lines[1..][i - 1];
    }
  }

  /** Loading a and then b is loading a + b, unless a stopped. */
  lemma {:induction false} LoadAppend(store: map<string, Val>, a: seq<string>, b: seq<string>)
    decreases |a|
    ensures Load(store, a + b) ==
              if Load(store, a).bad.Some? then Load(store, a) else Load(Load(store, a).store, b)
  {
    if a == [] {
      assert a + b == b;
    } else {
      assert (a + b)[0] == a[0] && (a + b)[1..] == a[1..] + b;
      match ParseLine(a[0])
      case Err(_) =>
      case Ok((k, v)) =>
        LoadAppend(store[k := StrVal(v)], a[1..], b);
    }
  }

  /** The last line wins: after loading lines that are all well formed, a
      final `key=value` line leaves key holding value, whatever the
      earlier lines or the store said. */
  lemma {:induction false} LoadLastWins(store: map<string, Val>, lines: seq<string>, key: string, value: string)
    requires '=' !in key && '=' !in value
    requires Load(store, lines).bad.None?
    ensures Load(store, lines + [key + "=" + value]) ==
              Loaded(Load(store, lines).store[key := StrVal(value)], None)
  {
    LoadAppend(store, lines, [key + "=" + value]);
    ParseLineRoundTrip(key, value);
    assert [key + "=" + value][1..] == [];
  }
}

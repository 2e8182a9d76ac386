/**
 * The `.env` configuration provider: every line of the file is split on `=`
 * with empty segments dropped, and a line that yields exactly two parts
 * stores the second under the first. Later lines overwrite earlier ones.
 */
module EnvConfig {
  import opened Wrappers

  const Separator: char := '='

  // ---------------------------------------------------------------------------
  // Splitting a line

  /**
   * `line.Split('=')`: the maximal runs between separators, in order; a line
   * with k separators has k + 1 segments, some of them possibly empty.
   */
  function Segments(line: string): (r: seq<string>)
    ensures |r| >= 1
    ensures forall i :: 0 <= i < |r| ==> Separator !in r[i]
    decreases |line|
  {
    if line == [] then [""]
    else
      var rest := Segments(line[1..]);
      if line[0] == Separator then [""] + rest
      else [[line[0]] + rest[0]] + rest[1..]
  }

  /** The segments glued back together with the separator between them. */
  function Join(parts: seq<string>): (line: string)
    requires |parts| >= 1
    decreases |parts|
  {
    if |parts| == 1 then parts[0]
    else parts[0] + [Separator] + Join(parts[1..])
  }

  /** `StringSplitOptions.RemoveEmptyEntries`: the non-empty segments, in order. */
  function RemoveEmpty(parts: seq<string>): (r: seq<string>)
    ensures |r| <= |parts|
    ensures forall i :: 0 <= i < |r| ==> r[i] != "" && r[i] in parts
    ensures forall p :: p in parts && p != "" ==> p in r
  {
    if parts == [] then []
    else (if parts[0] == "" then [] else [parts[0]]) + RemoveEmpty(parts[1..])
  }

  /**
   * Dropping empty entries works piece by piece: the kept segments of a
   * concatenation are those of each part, in order and with repetitions.
   */
  lemma {:induction false} RemoveEmptyAppend(a: seq<string>, b: seq<string>)
    ensures RemoveEmpty(a + b) == RemoveEmpty(a) + RemoveEmpty(b)
    decreases |a|
  {
    if a == [] {
      assert a + b == b;
    } else {
      assert (a + b)[1..] == a[1..] + b;
      RemoveEmptyAppend(a[1..], b);
    }
  }

  /** The parts the provider counts: the non-empty `=`-free pieces of the line. */
  function Parts(line: string): (r: seq<string>)
    ensures forall i :: 0 <= i < |r| ==> r[i] != "" && Separator !in r[i]
  {
    RemoveEmpty(Segments(line))
  }

  /** A line is kept exactly when it splits into two parts. */
  predicate IsEntry(line: string) {
    |Parts(line)| == 2
  }

  // ---------------------------------------------------------------------------
  // Splitting and joining are inverse

  /** Splitting a line and joining the segments gives the line back. */
  lemma {:induction false} JoinSegments(line: string)
    ensures Join(Segments(line)) == line
    decreases |line|
  {
    if line != [] {
      var rest := Segments(line[1..]);
      JoinSegments(line[1..]);
      if line[0] == Separator {
        assert Join([""] + rest) == "" + [Separator] + Join(rest) by {
          assert ([""] + rest)[1..] == rest;
        }
        assert line == [line[0]] + line[1..];
      } else if |rest| == 1 {
        assert line == [line[0]] + line[1..];
      } else {
        var r := [[line[0]] + rest[0]] + rest[1..];
        assert r[1..] == rest[1..];
        calc {
          Join(r);
          ([line[0]] + rest[0]) + [Separator] + Join(rest[1..]);
          [line[0]] + (rest[0] + [Separator] + Join(rest[1..]));
          [line[0]] + Join(rest);
          [line[0]] + line[1..];
          line;
        }
      }
    }
  }

  /** A piece without separators is a single segment. */
  lemma {:induction false} SegmentsOfPiece(piece: string)
    requires Separator !in piece
    ensures Segments(piece) == [piece]
    decreases |piece|
  {
    if piece != [] {
      SegmentsOfPiece(piece[1..]);
      assert [piece[0]] + piece[1..] == piece;
    }
  }

  /** Splitting at a separator after a separator-free piece peels off that piece. */
  lemma {:induction false} SegmentsAfterPiece(piece: string, tail: string)
    requires Separator !in piece
    ensures Segments(piece + [Separator] + tail) == [piece] + Segments(tail)
    decreases |piece|
  {
    var line := piece + [Separator] + tail;
    if piece == [] {
      assert line[1..] == tail;
    } else {
      assert line[1..] == piece[1..] + [Separator] + tail;
      SegmentsAfterPiece(piece[1..], tail);
      assert [piece[0]] + piece[1..] == piece;
    }
  }

  /** Joining separator-free pieces and splitting again gives the pieces back. */
  lemma {:induction false} SegmentsJoin(parts: seq<string>)
    requires |parts| >= 1
    requires forall i :: 0 <= i < |parts| ==> Separator !in parts[i]
    ensures Segments(Join(parts)) == parts
    decreases |parts|
  {
    if |parts| == 1 {
      SegmentsOfPiece(parts[0]);
    } else {
      SegmentsJoin(parts[1..]);
      SegmentsAfterPiece(parts[0], Join(parts[1..]));
      assert [parts[0]] + parts[1..] == parts;
    }
  }

  /** Joining two or three segments. */
  lemma JoinSmall(a: string, b: string, c: string)
    ensures Join([a, b]) == a + [Separator] + b
    ensures Join([a, b, c]) == a + [Separator] + b + [Separator] + c
  {
    assert [a, b][1..] == [b];
    assert [a, b, c][1..] == [b, c];
    assert [b, c][1..] == [c];
    assert Join([b, c]) == b + [Separator] + c;
    assert Join([a, b, c]) == a + [Separator] + (b + [Separator] + c);
  }

  // ---------------------------------------------------------------------------
  // Which lines are kept

  /** `KEY=VAL` gives the two parts KEY and VAL. */
  lemma KeyValueLine(key: string, value: string)
    requires key != "" && value != "" && Separator !in key && Separator !in value
    ensures Parts(key + [Separator] + value) == [key, value]
  {
    JoinSmall(key, value, "");
    SegmentsJoin([key, value]);
    RemoveEmptySmall(key, value, "");
  }

  /**
   * Empty segments are dropped before counting: `=KEY=VAL` and `KEY==VAL`
   * give the same two parts as `KEY=VAL`.
   */
  lemma EmptySegmentsDropped(key: string, value: string)
    requires key != "" && value != "" && Separator !in key && Separator !in value
    ensures Parts([Separator] + key + [Separator] + value) == [key, value]
    ensures Parts(key + [Separator, Separator] + value) == [key, value]
  {
    JoinSmall("", key, value);
    assert [Separator] + key + [Separator] + value == Join(["", key, value]);
    SegmentsJoin(["", key, value]);
    RemoveEmptySmall("", key, value);
    JoinSmall(key, "", value);
    assert key + [Separator, Separator] + value == Join([key, "", value]);
    SegmentsJoin([key, "", value]);
    RemoveEmptySmall(key, "", value);
  }

  /**
   * A line with no separator, a key with nothing after its separator and a
   * value holding another separator (`a=b=c`) are all ignored.
   */
  lemma RejectedLines(a: string, b: string, c: string)
    requires a != "" && b != "" && c != ""
    requires Separator !in a && Separator !in b && Separator !in c
    ensures !IsEntry(a)
    ensures !IsEntry(a + [Separator])
    ensures !IsEntry(a + [Separator] + b + [Separator] + c)
  {
    SegmentsOfPiece(a);
    assert RemoveEmpty([a]) == [a];
    JoinSmall(a, "", "");
    assert a + [Separator] == Join([a, ""]);
    SegmentsJoin([a, ""]);
    RemoveEmptySmall(a, "", "");
    JoinSmall(a, b, c);
    SegmentsJoin([a, b, c]);
    RemoveEmptySmall(a, b, c);
  }

  /** Dropping the empty entries of two or three segments. */
  lemma RemoveEmptySmall(a: string, b: string, c: string)
    ensures RemoveEmpty([a, b]) == (if a == "" then [] else [a]) + (if b == "" then [] else [b])
    ensures RemoveEmpty([a, b, c]) ==
      (if a == "" then [] else [a]) + (if b == "" then [] else [b]) + (if c == "" then [] else [c])
  {
    assert [a, b][1..] == [b];
    assert [a, b, c][1..] == [b, c];
    assert [b, c][1..] == [c];
    assert [c][1..] == [];
    assert [b][1..] == [];
    assert RemoveEmpty([b, c]) == (if b == "" then [] else [b]) + (if c == "" then [] else [c]);
  }

  // ---------------------------------------------------------------------------
  // Folding the lines into the configuration data

  /**
   * The `Data` dictionary after the given lines, read first to last: each
   * kept line stores its second part under its first. Every stored key and
   * value is non-empty and free of separators.
   */
  function EnvData(lines: seq<string>): (data: map<string, string>)
    ensures forall k :: k in data ==> k != "" && Separator !in k && data[k] != "" && Separator !in data[k]
    decreases |lines|
  {
    if lines == [] then map[]
    else
      var data := EnvData(lines[..|lines| - 1]);
      var parts := Parts(lines[|lines| - 1]);
      if |parts| == 2 then data[parts[0] := parts[1]] else data
  }

  /** Index of the last kept line whose key is `key`, if any. */
  function LastEntryFor(lines: seq<string>, key: string): (j: Option<nat>)
    ensures j.Some? ==> j.value < |lines| && IsEntry(lines[j.value]) && Parts(lines[j.value])[0] == key
    ensures j.Some? ==> forall i :: j.value < i < |lines| && IsEntry(lines[i]) ==> Parts(lines[i])[0] != key
    ensures j.None? ==> forall i :: 0 <= i < |lines| && IsEntry(lines[i]) ==> Parts(lines[i])[0] != key
    decreases |lines|
  {
    if lines == [] then None
    else
      var last := |lines| - 1;
      if IsEntry(lines[last]) && Parts(lines[last])[0] == key then Some(last)
      else LastEntryFor(lines[..last], key)
  }

  /**
   * Later lines win: a key is stored exactly when some kept line names it,
   * and its value is the second part of the last such line.
   */
  lemma {:induction false} EnvDataLookup(lines: seq<string>, key: string)
    ensures key in EnvData(lines) <==> LastEntryFor(lines, key).Some?
    ensures key in EnvData(lines) ==>
      EnvData(lines)[key] == Parts(lines[LastEntryFor(lines, key).value])[1]
    decreases |lines|
  {
    if lines != [] {
      var last := |lines| - 1;
      EnvDataLookup(lines[..last], key);
      if !(IsEntry(lines[last]) && Parts(lines[last])[0] == key) {
        var j := LastEntryFor(lines[..last], key);
        if j.Some? {
          assert lines[..last][j.value] == lines[j.value];
        }
      }
    }
  }

  /** A line that is not kept leaves the data as it was. */
  lemma IgnoredLine(lines: seq<string>, line: string)
    requires !IsEntry(line)
    ensures EnvData(lines + [line]) == EnvData(lines)
  {
    assert (lines + [line])[..|lines|] == lines;
  }

  /** A kept line stores its value under its key and leaves every other key as it was. */
  lemma KeptLine(lines: seq<string>, line: string)
    requires IsEntry(line)
    ensures var data := EnvData(lines + [line]);
      && Parts(line)[0] in data && data[Parts(line)[0]] == Parts(line)[1]
      && forall k :: k != Parts(line)[0] ==>
           (k in data <==> k in EnvData(lines)) && (k in data ==> data[k] == EnvData(lines)[k])
  {
    assert (lines + [line])[..|lines|] == lines;
  }

  // ---------------------------------------------------------------------------
  // The provider

  /** `EnvConfigurationProvider`; `file` is the file's lines, `None` when it does not exist. */
  class EnvConfigurationProvider {
    var data: map<string, string>

    constructor (file: Option<seq<string>>)
      ensures file.None? ==> data == map[]
      ensures file.Some? ==> data == EnvData(file.value)
    {
      data := map[];
      new;
      if file.Some? {
        var lines := file.value;
        var i := 0;
        while i < |lines|
          invariant 0 <= i <= |lines|
          invariant data == EnvData(lines[..i])
          modifies this
        {
          var parts := Parts(lines[i]);
          if |parts| == 2 {
            data := data[parts[0] := parts[1]];
          }
          assert lines[..i + 1][..i] == lines[..i];
          i := i + 1;
        }
        assert lines[..i] == lines;
      }
    }
  }
}

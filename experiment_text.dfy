/**
 * The text helpers of experiment.py: the channel prefix `parse_message`
 * strips off a raw socket message, the `PluralFormatter` rule for
 * `{n:plural,one,many}` fields, and `isplit`, which splits a list on
 * separator values.
 */
module ExperimentText {
  import opened Base
  import opened PyStr
  import opened ExperimentItem

  // ---------------------------------------------------------------------
  // parse_message

  /**
   * `parse_message` as written: a message on the channel has every
   * occurrence of `channel:` removed (`str.replace`), not only the
   * leading one. The body is returned unparsed.
   */
  function ParseMessageAsWritten(channel: string, raw: string): (r: Option<string>)
    ensures r.Some? <==> StartsWith(raw, channel + ":")
  {
    if StartsWith(raw, channel + ":") then Some(ReplaceAll(raw, channel + ":", "")) else None
  }

  /** `parse_message` as its documentation describes it: the channel prefix stripped off the front. The body is returned unparsed. */
  function ParseMessage(channel: string, raw: string): (r: Option<string>)
    ensures r.Some? <==> StartsWith(raw, channel + ":")
    ensures r.Some? ==> channel + ":" + r.value == raw
  {
    if StartsWith(raw, channel + ":") then Some(raw[|channel| + 1..]) else None
  }

  /** Framing a body on a channel and parsing it gives the body back. */
  lemma ParseFramed(channel: string, body: string)
    ensures ParseMessage(channel, channel + ":" + body) == Some(body)
  {
    var raw := channel + ":" + body;
    assert raw[..|channel + ":"|] == channel + ":";
    assert raw[|channel| + 1..] == body;
  }

  /** The two agree on every body in which the prefix does not occur. */
  lemma ParseAgrees(channel: string, body: string)
    requires forall i: nat :: i <= |body| ==> !OccursAt(body, i, channel + ":")
    ensures ParseMessageAsWritten(channel, channel + ":" + body) == ParseMessage(channel, channel + ":" + body)
  {
    var p := channel + ":";
    var raw := p + body;
    ParseFramed(channel, body);
    assert StartsWith(raw, p) by {
      assert raw[..|p|] == p;
    }
    assert raw[|p|..] == body;
    assert ReplaceAll(raw, p, "") == ReplaceAll(body, p, "");
    ReplaceAbsent(body, p, "");
  }

  /** A body quoting the prefix loses it: on channel `c`, the JSON string `"c:"` arrives as `""`. */
  lemma ParseMessageCorrupts()
    ensures ParseMessageAsWritten("c", "c:\"c:\"") == Some("\"\"")
    ensures ParseMessage("c", "c:\"c:\"") == Some("\"c:\"")
  {
    var p := "c:";
    var raw := "c:\"c:\"";
    assert !StartsWith("\"", p);
    assert StartsWith("c:\"", p) && "c:\""[2..] == "\"";
    assert ReplaceAll("c:\"", p, "") == "\"";
    var quoted := "\"c:\"";
    assert quoted[..2][0] == '"';
    assert !StartsWith(quoted, p) && quoted[1..] == "c:\"";
    assert ReplaceAll(quoted, p, "") == "\"\"";
    assert StartsWith(raw, p) && raw[2..] == quoted;
    assert ReplaceAll(raw, p, "") == "\"\"";
    assert "c" + ":" == p;
  }

  // ---------------------------------------------------------------------
  // PluralFormatter

  /** `value == 1 or value == "1" or value == 1.0`, where Python's `True == 1` holds too. */
  predicate IsOne(v: Val) {
    v == VInt(1) || v == VStr("1") || v == VReal(1.0) || v == VBool(true)
  }

  /**
   * `PluralFormatter.format_field`: a spec starting with `plural` is split
   * on commas and gives its second word for a value equal to 1 and its
   * third otherwise, `IndexError` when that word is missing; any other
   * spec is the standard formatting, `format`.
   */
  function FormatField(value: Val, spec: string, format: (Val, string) -> string): (r: Result<string>)
    ensures !StartsWith(spec, "plural") ==> r == Ok(format(value, spec))
    ensures r.Err? ==> r.error == "IndexError"
  {
    if StartsWith(spec, "plural") then
      var words := Split(spec, ',');
      if IsOne(value) then (if |words| > 1 then Ok(words[1]) else Err("IndexError"))
      else if |words| > 2 then Ok(words[2]) else Err("IndexError")
    else Ok(format(value, spec))
  }

  /** `{n:plural,one,many}` reads `one` exactly for a value equal to 1 and `many` for any other. */
  lemma FormatPlural(value: Val, one: string, many: string, format: (Val, string) -> string)
    requires ',' !in one && ',' !in many
    ensures FormatField(value, "plural," + one + "," + many, format) == Ok(if IsOne(value) then one else many)
  {
    var spec := "plural," + one + "," + many;
    var words := ["plural", one, many];
    assert JoinWith(words, ',') == spec by {
      assert JoinWith(words[2..], ',') == many;
      assert JoinWith(words[1..], ',') == one + "," + many;
    }
    JoinSplit(words, ',');
    assert StartsWith(spec, "plural") by {
      assert spec[..6] == "plural";
    }
  }

  /** A plural spec with fewer than two words after `plural` raises for the form it lacks. */
  lemma FormatPluralShort(value: Val, format: (Val, string) -> string)
    ensures FormatField(value, "plural", format) == Err("IndexError")
  {
    assert Split("plural", ',') == ["plural"] by {
      JoinSplit(["plural"], ',');
    }
    assert StartsWith("plural", "plural");
  }

  // ---------------------------------------------------------------------
  // isplit

  /** The length of the run of non-separators `s` starts with. */
  function RunLength<T(==)>(s: seq<T>, splitters: seq<T>): (n: nat)
    ensures n <= |s|
    ensures forall i :: 0 <= i < n ==> s[i] !in splitters
    ensures n < |s| ==> s[n] in splitters
  {
    if s == [] || s[0] in splitters then 0 else 1 + RunLength(s[1..], splitters)
  }

  /**
   * `isplit(seq, splitters)`: the maximal runs of `seq` free of
   * separators, in order (`itertools.groupby` on `x in splitters`,
   * keeping the groups whose key is false).
   */
  function Isplit<T(==)>(s: seq<T>, splitters: seq<T>): (groups: seq<seq<T>>)
    decreases |s|
  {
    if s == [] then []
    else if s[0] in splitters then Isplit(s[1..], splitters)
    else
      var n := RunLength(s, splitters);
      [s[..n]] + Isplit(s[n..], splitters)
  }

  /** The elements of `s` that are not separators, in order. */
  function Kept<T(==)>(s: seq<T>, splitters: seq<T>): seq<T> {
    if s == [] then [] else (if s[0] in splitters then [] else [s[0]]) + Kept(s[1..], splitters)
  }

  /** The groups laid end to end. */
  function Flatten<T>(groups: seq<seq<T>>): seq<T> {
    if groups == [] then [] else groups[0] + Flatten(groups[1..])
  }

  /** A group: non-empty and free of separators. */
  predicate Group<T(==)>(g: seq<T>, splitters: seq<T>) {
    g != [] && forall i :: 0 <= i < |g| ==> g[i] !in splitters
  }

  /** `Kept` of a separator-free run is the run. */
  lemma {:induction false} KeptRun<T>(g: seq<T>, splitters: seq<T>)
    requires forall i :: 0 <= i < |g| ==> g[i] !in splitters
    ensures Kept(g, splitters) == g
  {
    if g != [] {
      KeptRun(g[1..], splitters);
    }
  }

  /** `Kept` distributes over concatenation. */
  lemma {:induction false} KeptAppend<T>(a: seq<T>, b: seq<T>, splitters: seq<T>)
    ensures Kept(a + b, splitters) == Kept(a, splitters) + Kept(b, splitters)
  {
    if a == [] {
      assert a + b == b;
    } else {
      assert (a + b)[1..] == a[1..] + b;
      KeptAppend(a[1..], b, splitters);
    }
  }

  /**
   * Every group is non-empty and free of separators, and together they
   * hold exactly the non-separators of `s`, in order: nothing is lost or
   * duplicated.
   */
  lemma {:induction false} IsplitMeaning<T>(s: seq<T>, splitters: seq<T>)
    ensures forall k :: 0 <= k < |Isplit(s, splitters)| ==> Group(Isplit(s, splitters)[k], splitters)
    ensures Flatten(Isplit(s, splitters)) == Kept(s, splitters)
    decreases |s|
  {
    if s != [] {
      if s[0] in splitters {
        IsplitMeaning(s[1..], splitters);
      } else {
        var n := RunLength(s, splitters);
        IsplitMeaning(s[n..], splitters);
        var groups := Isplit(s, splitters);
        assert groups[1..] == Isplit(s[n..], splitters);
        forall k | 0 <= k < |groups| ensures Group(groups[k], splitters) {
          if k > 0 {
            assert groups[k] == Isplit(s[n..], splitters)[k - 1];
          }
        }
        assert s == s[..n] + s[n..];
        KeptAppend(s[..n], s[n..], splitters);
        KeptRun(s[..n], splitters);
      }
    }
  }

  /** `x.join(groups)` for lists: the groups with one `x` between each two. */
  function Joined<T>(groups: seq<seq<T>>, x: T): seq<T> {
    if groups == [] then []
    else if |groups| == 1 then groups[0]
    else groups[0] + [x] + Joined(groups[1..], x)
  }

  /** The run a group starts is the whole group, whatever separator-led rest follows it. */
  lemma {:induction false} RunOfGroup<T>(g: seq<T>, rest: seq<T>, splitters: seq<T>)
    requires forall i :: 0 <= i < |g| ==> g[i] !in splitters
    requires rest == [] || rest[0] in splitters
    ensures RunLength(g + rest, splitters) == |g|
  {
    if g != [] {
      assert (g + rest)[1..] == g[1..] + rest;
      RunOfGroup(g[1..], rest, splitters);
    } else {
      assert g + rest == rest;
    }
  }

  /** Joining groups with a separator and splitting again gives the groups back. */
  lemma {:induction false} IsplitJoined<T>(groups: seq<seq<T>>, x: T, splitters: seq<T>)
    requires x in splitters
    requires forall k :: 0 <= k < |groups| ==> Group(groups[k], splitters)
    ensures Isplit(Joined(groups, x), splitters) == groups
  {
    if groups != [] {
      var g := groups[0];
      var rest: seq<T> := if |groups| == 1 then [] else [x] + Joined(groups[1..], x);
      var s := Joined(groups, x);
      assert s == g + rest;
      RunOfGroup(g, rest, splitters);
      assert Group(g, splitters);
      assert s[0] == g[0] && s[0] !in splitters;
      assert s[..|g|] == g && s[|g|..] == rest;
      if |groups| > 1 {
        IsplitJoined(groups[1..], x, splitters);
        assert rest[1..] == Joined(groups[1..], x);
        assert Isplit(rest, splitters) == Isplit(rest[1..], splitters);
      }
    }
  }
}

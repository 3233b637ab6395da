/**
 * The response-capture bag of `webtest/webtest.go`: a map from capture-group
 * name to the last string captured under it, the `:name` placeholders it
 * fills in, the escaping applied to a value before it is spliced into a
 * regular expression, and the write-back of named groups after a match.
 */
module Bag {
  import Text
  import GoMaps

  /** The characters the escaping expression of webtest.go puts a backslash in front of. */
  const Metacharacters: set<char> :=
    {'\\', '.', '+', '*', '?', '[', '^', ']', '$', '(', ')', '{', '}', '=', '!', '<', '>', '|', ':', '-'}

  /** How many characters of `s` are metacharacters. */
  function CountMeta(s: string): nat {
    if s == [] then 0 else (if s[0] in Metacharacters then 1 else 0) + CountMeta(s[1..])
  }

  /**
   * The escaping of a bag value for regex mode: each metacharacter is
   * preceded by one backslash, every other character is copied.
   */
  function RegexEscape(s: string): (r: string)
    ensures |r| == |s| + CountMeta(s)
  {
    if s == [] then []
    else (if s[0] in Metacharacters then ['\\', s[0]] else [s[0]]) + RegexEscape(s[1..])
  }

  /** Drops the backslash in front of each escaped metacharacter. */
  function Unescape(t: string): string {
    if t == [] then []
    else if |t| >= 2 && t[0] == '\\' && t[1] in Metacharacters then [t[1]] + Unescape(t[2..])
    else [t[0]] + Unescape(t[1..])
  }

  /**
   * `t` reads as a sequence of literal characters: every metacharacter in it
   * stands behind a backslash, and no other character does.
   */
  predicate AllQuoted(t: string) {
    if t == [] then true
    else if t[0] !in Metacharacters then AllQuoted(t[1..])
    else |t| >= 2 && t[0] == '\\' && t[1] in Metacharacters && AllQuoted(t[2..])
  }

  /** Removing the backslashes restores the original value. */
  lemma {:induction false} UnescapeEscape(s: string)
    ensures Unescape(RegexEscape(s)) == s
  {
    if s != [] {
      UnescapeEscape(s[1..]);
      var t := RegexEscape(s);
      if s[0] in Metacharacters {
        assert t[2..] == RegexEscape(s[1..]);
      } else {
        assert t[1..] == RegexEscape(s[1..]);
      }
      assert s == [s[0]] + s[1..];
    }
  }

  /** The escaped value leaves no metacharacter unescaped. */
  lemma {:induction false} EscapeQuotes(s: string)
    ensures AllQuoted(RegexEscape(s))
  {
    if s != [] {
      EscapeQuotes(s[1..]);
      var t := RegexEscape(s);
      if s[0] in Metacharacters {
        assert t[2..] == RegexEscape(s[1..]);
      } else {
        assert t[1..] == RegexEscape(s[1..]);
      }
    }
  }

  lemma EscapeCons(c: char, x: string)
    ensures RegexEscape([c] + x) == (if c in Metacharacters then ['\\', c] else [c]) + RegexEscape(x)
  {
    assert ([c] + x)[1..] == x;
  }

  /** Every fully quoted text is the escaping of exactly one value: its unescaping. */
  lemma {:induction false} EscapeUnescape(t: string)
    requires AllQuoted(t)
    ensures RegexEscape(Unescape(t)) == t
  {
    if t == [] {
    } else if t[0] !in Metacharacters {
      var x := Unescape(t[1..]);
      assert Unescape(t) == [t[0]] + x;
      EscapeUnescape(t[1..]);
      EscapeCons(t[0], x);
      assert t == [t[0]] + t[1..];
    } else {
      var x := Unescape(t[2..]);
      assert t[0] == '\\' && t[1] in Metacharacters;
      assert Unescape(t) == [t[1]] + x;
      EscapeUnescape(t[2..]);
      EscapeCons(t[1], x);
      assert t == [t[0], t[1]] + t[2..];
    }
  }

  /**
   * The placeholder written in a URL, payload or pattern to stand for bag
   * entry `key`. For a key without ':', as every capture-group name is, two
   * occurrences of the placeholder cannot overlap.
   */
  function Placeholder(key: string): (p: string)
    ensures p != [] && p[1..] == key
    ensures ':' !in key ==> Text.Unbordered(p)
  {
    if ':' !in key then ColonLedUnbordered(key); [':'] + key
    else [':'] + key
  }

  /** Every bag key is free of ':'. */
  predicate ColonFree(bag: map<string, string>) {
    forall k :: k in bag ==> ':' !in k
  }

  /** The text spliced in for a bag value: escaped in regex mode, as it is otherwise. */
  function Spliced(value: string, isRegex: bool): string {
    if isRegex then RegexEscape(value) else value
  }

  /** One round of the substitution loop of webtest.go: the entry for `key`, applied to `text`. */
  function SubstituteKey(text: string, key: string, value: string, isRegex: bool): string {
    var placeholder := Placeholder(key);
    if Text.Contains(text, placeholder) then Text.ReplaceAll(text, placeholder, Spliced(value, isRegex))
    else text
  }

  /**
   * The substitution of `text` with the bag entries in `order`, first key first:
   * the value `replaceBagValue` returns when the map is ranged in that order.
   */
  function Substitute(text: string, order: seq<string>, bag: map<string, string>, isRegex: bool): string
    requires forall k :: k in order ==> k in bag
  {
    if order == [] then text
    else
      var key := order[|order| - 1];
      SubstituteKey(Substitute(text, order[..|order| - 1], bag, isRegex), key, bag[key], isRegex)
  }

  /** A ':' followed by text without ':' has no proper suffix that is also its prefix. */
  lemma ColonLedUnbordered(key: string)
    requires ':' !in key
    ensures Text.Unbordered([':'] + key)
  {
    var p := [':'] + key;
    forall j | 0 < j < |p| ensures !Text.BorderAt(p, j) {
      assert p[j..][0] == key[j - 1];
      assert p[..|p| - j][0] == ':';
    }
  }

  /** The `strings.Contains` guard in the loop is redundant: without it the text is the same. */
  lemma SubstituteKeyIsReplaceAll(text: string, key: string, value: string, isRegex: bool)
    ensures SubstituteKey(text, key, value, isRegex)
         == Text.ReplaceAll(text, Placeholder(key), Spliced(value, isRegex))
  {
  }

  /**
   * One key: the text is cut at the occurrences of `:key` that a
   * left-to-right scan finds, and the pieces are joined with the spliced value.
   */
  lemma SubstituteKeySplitJoin(text: string, key: string, value: string, isRegex: bool)
    ensures SubstituteKey(text, key, value, isRegex)
         == Text.Join(Text.Split(text, Placeholder(key)), Spliced(value, isRegex))
  {
    Text.ReplaceAllIsSplitJoin(text, Placeholder(key), Spliced(value, isRegex));
  }

  /**
   * One key without `:`, as every captured name is: however the text is
   * written as placeholder-free pieces joined by `:key`, every one of those
   * joints becomes the spliced value and the pieces are kept as they were.
   */
  lemma SubstituteKeyReplacesEveryOccurrence(pieces: seq<string>, key: string, value: string, isRegex: bool)
    requires ':' !in key
    requires forall i :: 0 <= i < |pieces| ==> !Text.Contains(pieces[i], Placeholder(key))
    ensures SubstituteKey(Text.Join(pieces, Placeholder(key)), key, value, isRegex)
         == Text.Join(pieces, Spliced(value, isRegex))
  {
    SubstituteKeyIsReplaceAll(Text.Join(pieces, Placeholder(key)), key, value, isRegex);
    Text.ReplaceAllJoin(pieces, Placeholder(key), Spliced(value, isRegex));
  }

  /** An empty bag substitutes nothing, whatever the mode. */
  lemma SubstituteEmptyBag(text: string, order: seq<string>, isRegex: bool)
    requires GoMaps.IsKeyOrder<string>(order, map[])
    ensures Substitute(text, order, map[], isRegex) == text
  {
    GoMaps.KeyOrderLength<string>(order, map[]);
  }

  /**
   * Text in which no placeholder of the bag occurs is returned unchanged, in
   * every iteration order; a `:name` for a name not yet captured stays literal.
   */
  lemma {:induction false} SubstituteNoPlaceholder(text: string, order: seq<string>, bag: map<string, string>, isRegex: bool)
    requires forall k :: k in order ==> k in bag
    requires forall k :: k in bag ==> !Text.Contains(text, Placeholder(k))
    ensures Substitute(text, order, bag, isRegex) == text
  {
    if order != [] {
      SubstituteNoPlaceholder(text, order[..|order| - 1], bag, isRegex);
      assert order[|order| - 1] in order;
    }
  }

  /** A bag with a single entry: the text is cut at `:key` and joined again with the spliced value. */
  lemma SubstituteSingleEntry(text: string, key: string, value: string, isRegex: bool)
    ensures Substitute(text, [key], map[key := value], isRegex)
         == Text.Join(Text.Split(text, Placeholder(key)), Spliced(value, isRegex))
  {
    assert [key][..0] == [];
    SubstituteKeySplitJoin(text, key, value, isRegex);
  }

  /**
   * The iteration order matters when one key is a prefix of another: with
   * `id` and `idx` in the bag, `:idx` becomes `1x` or `2` depending on which
   * key the map hands out first.
   */
  lemma SubstituteDependsOnOrder()
    ensures Substitute(":idx", ["id", "idx"], map["id" := "1", "idx" := "2"], false) == "1x"
    ensures Substitute(":idx", ["idx", "id"], map["id" := "1", "idx" := "2"], false) == "2"
  {
    var bag := map["id" := "1", "idx" := "2"];
    assert Text.HasPrefix(":idx", ":id");
    assert Text.ReplaceAll(":idx", ":id", "1") == "1x" by {
      assert ":idx"[3..] == "x";
      assert Text.ReplaceAll("x", ":id", "1") == "x";
    }
    assert !Text.Contains("1x", ":idx") by {
      Text.ShortNoContains("1x", ":idx");
    }
    assert ["id", "idx"][..1] == ["id"] && ["id"][..0] == [];
    assert Text.HasPrefix(":idx", ":idx");
    assert Text.ReplaceAll(":idx", ":idx", "2") == "2" by {
      assert ":idx"[4..] == "";
    }
    assert !Text.Contains("2", ":id") by {
      Text.ShortNoContains("2", ":id");
    }
    assert ["idx", "id"][..1] == ["idx"] && ["idx"][..0] == [];
  }

  /**
   * The bag after a successful match whose group `i` is named `names[i]` and
   * matched `groups[i]`, once the first `n` groups have been visited: group 0
   * and unnamed groups are skipped, a named group overwrites its entry.
   */
  function Capture(bag: map<string, string>, names: seq<string>, groups: seq<string>, n: nat): map<string, string>
    requires n <= |names| == |groups|
  {
    if n == 0 then bag
    else
      var b := Capture(bag, names, groups, n - 1);
      if n - 1 != 0 && names[n - 1] != "" then b[names[n - 1] := groups[n - 1]] else b
  }

  /** Group `j` carries a name that none of the groups after it and before `n` carries. */
  predicate LastNamed(names: seq<string>, j: nat, n: nat)
    requires j < n <= |names|
  {
    names[j] != "" && forall j' :: j < j' < n ==> names[j'] != names[j]
  }

  /** `k` names one of the groups 1 to `n - 1`. */
  predicate NamesGroup(names: seq<string>, k: string, n: nat)
    requires n <= |names|
  {
    k != "" && exists j :: 1 <= j < n && names[j] == k
  }

  /** The keys after capture: the old keys and the names of groups 1 and up. */
  lemma {:induction false} CaptureKeys(bag: map<string, string>, names: seq<string>, groups: seq<string>, n: nat)
    requires n <= |names| == |groups|
    ensures forall k :: k in Capture(bag, names, groups, n) <==> k in bag || NamesGroup(names, k, n)
  {
    if n > 0 {
      CaptureKeys(bag, names, groups, n - 1);
      forall k ensures NamesGroup(names, k, n) <==> NamesGroup(names, k, n - 1) || (n - 1 != 0 && k == names[n - 1] && k != "") {
        if NamesGroup(names, k, n) && !NamesGroup(names, k, n - 1) {
          var j :| 1 <= j < n && names[j] == k;
          assert j == n - 1;
        }
      }
    }
  }

  /** A named group of index 1 or more is written, and the last group of a name wins. */
  lemma {:induction false} CaptureWritten(bag: map<string, string>, names: seq<string>, groups: seq<string>, n: nat, j: nat)
    requires n <= |names| == |groups|
    requires 1 <= j < n && LastNamed(names, j, n)
    ensures names[j] in Capture(bag, names, groups, n)
    ensures Capture(bag, names, groups, n)[names[j]] == groups[j]
  {
    if j < n - 1 {
      assert LastNamed(names, j, n - 1);
      CaptureWritten(bag, names, groups, n - 1, j);
    }
  }

  /** An entry whose key names no group of index 1 or more keeps its value. */
  lemma {:induction false} CaptureUntouched(bag: map<string, string>, names: seq<string>, groups: seq<string>, n: nat, k: string)
    requires n <= |names| == |groups|
    requires k in bag && !NamesGroup(names, k, n)
    ensures k in Capture(bag, names, groups, n) && Capture(bag, names, groups, n)[k] == bag[k]
  {
    if n > 0 {
      assert !NamesGroup(names, k, n - 1);
      CaptureUntouched(bag, names, groups, n - 1, k);
    }
  }
}

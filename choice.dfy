/** The prompt answers of src/choice.rs: a line typed by the user becomes
    ignore names or include patterns. The line is a parameter here; the
    prompt text and the stdin read are not modelled. */
module Choice {
  import opened Str

  /** The pieces of `line` between single spaces, each trimmed. */
  function Pieces(line: string): (r: seq<string>)
    ensures |r| == Count(line, ' ') + 1
    ensures forall k :: 0 <= k < |r| ==> ' ' !in r[k] && Trim(r[k]) == r[k]
  {
    var ps := Split(line, ' ');
    seq(|ps|, k requires 0 <= k < |ps| => TrimmedPiece(ps[k]))
  }

  /** Trimming keeps an infix, so a piece free of ' ' stays free of it, and
      a trimmed piece is its own trim. */
  function TrimmedPiece(p: string): (r: string)
    requires ' ' !in p
    ensures r == Trim(p) && ' ' !in r && Trim(r) == r
  {
    TrimIdempotent(p);
    TrimKeepsCharacters(p);
    Trim(p)
  }

  lemma TrimKeepsCharacters(s: string)
    ensures forall k :: 0 <= k < |Trim(s)| ==> Trim(s)[k] in s
  {
    var r := Trim(s);
    forall k | 0 <= k < |r| ensures r[k] in s {
      assert r[k] == s[Lead(s) + k];
    }
  }

  /** `get_ignore`: one trimmed token per ' '-separated piece, in order. */
  function GetIgnore(line: string): (r: seq<string>)
    ensures |r| == Count(line, ' ') + 1
    ensures forall k :: 0 <= k < |r| ==> ' ' !in r[k] && Trim(r[k]) == r[k]
  {
    Pieces(line)
  }

  /** The ignore tokens are the ' '-separated pieces of the line, in order,
      each trimmed, so none begins or ends with whitespace. */
  lemma GetIgnoreTokens(line: string, k: nat)
    requires k < Count(line, ' ') + 1
    ensures |Split(line, ' ')| == |GetIgnore(line)|
    ensures GetIgnore(line)[k] == Trim(Split(line, ' ')[k])
    ensures var t := GetIgnore(line)[k];
            t != [] ==> !IsWhitespace(t[0]) && !IsWhitespace(t[|t| - 1])
  {
  }

  /** A token as an include pattern: one '.' in front unless it has one. */
  function Dotted(t: string): (r: string)
    ensures StartsWith(r, ".")
    ensures StartsWith(t, ".") ==> r == t
    ensures !StartsWith(t, ".") ==> r[1..] == t
  {
    if StartsWith(t, ".") then t else "." + t
  }

  /** A dotted token ends like the token, or in the '.' alone. */
  lemma DottedEnd(t: string)
    requires t != [] ==> !IsWhitespace(t[|t| - 1])
    ensures !IsWhitespace(Dotted(t)[|Dotted(t)| - 1])
  {
    if t != [] && !StartsWith(t, ".") {
      assert Dotted(t)[|Dotted(t)| - 1] == t[|t| - 1];
    }
  }

  /** Dotting a pattern twice is dotting it once. */
  lemma DottedIdempotent(t: string)
    ensures Dotted(Dotted(t)) == Dotted(t)
  {
  }

  /** `get_types`: the `get_ignore` tokens, each made to start with '.'. */
  function GetTypes(line: string): (r: seq<string>)
    ensures |r| == Count(line, ' ') + 1
    ensures forall k :: 0 <= k < |r| ==> StartsWith(r[k], ".") && Dotted(r[k]) == r[k]
    ensures forall k :: 0 <= k < |r| ==> r[k] == Dotted(GetIgnore(line)[k])
  {
    var ts := GetIgnore(line);
    var r := seq(|ts|, k requires 0 <= k < |ts| => Dotted(ts[k]));
    assert forall k :: 0 <= k < |r| ==> Dotted(r[k]) == r[k] by {
      forall k | 0 <= k < |r| ensures Dotted(r[k]) == r[k] { DottedIdempotent(ts[k]); }
    }
    r
  }

  /** No include token ends in whitespace: it ends like its trimmed piece,
      or is the "." an empty piece becomes. */
  lemma GetTypesTokenEnd(line: string, k: nat)
    requires k < Count(line, ' ') + 1
    ensures var t := GetTypes(line)[k]; !IsWhitespace(t[|t| - 1])
  {
    GetIgnoreTokens(line, k);
    DottedEnd(GetIgnore(line)[k]);
  }

  /** A string with no whitespace is its own trim. */
  lemma TrimNoWhitespace(s: string)
    requires forall k :: 0 <= k < |s| ==> !IsWhitespace(s[k])
    ensures Trim(s) == s
  {
    if s != [] {
      assert SkipWhitespace(s, 0) == 0;
      assert SkipWhitespaceBack(s, 0, |s|) == |s|;
      assert s[0..|s|] == s;
    }
  }

  /** When the only whitespace in the line is ' ', the ignore tokens are
      exactly its pieces, and joining them with ' ' gives the line back. */
  lemma {:induction false} GetIgnoreRoundTrip(line: string)
    requires forall k :: 0 <= k < |line| ==> line[k] == ' ' || !IsWhitespace(line[k])
    ensures JoinWith(GetIgnore(line), ' ') == line
  {
    var ps := Split(line, ' ');
    forall k | 0 <= k < |ps| ensures GetIgnore(line)[k] == ps[k] {
      forall j | 0 <= j < |ps[k]| ensures ps[k][j] in line {
        JoinWithKeepsCharacters(ps, ' ', k, j);
      }
      TrimNoWhitespace(ps[k]);
    }
    assert GetIgnore(line) == ps;
  }

  /** Every character of a piece occurs in the joined string. */
  lemma {:induction false} JoinWithKeepsCharacters(ps: seq<string>, sep: char, k: nat, j: nat)
    requires k < |ps| && j < |ps[k]|
    ensures ps[k][j] in JoinWith(ps, sep)
    decreases |ps|
  {
    if |ps| > 1 {
      var rest := JoinWith(ps[1..], sep);
      assert JoinWith(ps, sep) == ps[0] + [sep] + rest;
      if k == 0 {
        assert JoinWith(ps, sep)[j] == ps[0][j];
      } else {
        JoinWithKeepsCharacters(ps[1..], sep, k - 1, j);
        var i :| 0 <= i < |rest| && rest[i] == ps[k][j];
        assert JoinWith(ps, sep)[|ps[0]| + 1 + i] == rest[i];
      }
    }
  }

  /** Two spaces in a row give an empty piece: "." as an include pattern,
      "" as an ignore name; a line holding only its line feed gives one such
      token. */
  lemma EmptyPieces()
    ensures GetIgnore("  ") == ["", "", ""]
    ensures GetTypes("  ") == [".", ".", "."]
    ensures GetIgnore("\n") == [""]
    ensures GetTypes("\n") == ["."]
  {
    assert Split(" ", ' ') == ["", ""];
    assert Split("  ", ' ') == ["", "", ""];
    var g := GetIgnore("  ");
    assert |g| == 3 && g[0] == "" && g[1] == "" && g[2] == "";
    assert Dotted("") == ".";
    var t := GetTypes("  ");
    assert |t| == 3 && t[0] == Dotted(g[0]) && t[1] == Dotted(g[1]) && t[2] == Dotted(g[2]);
    assert Split("\n", ' ') == ["\n"];
    assert IsWhitespace('\n');
    assert AllWhitespace("\n");
  }
}

/**
 * AFL seed ids: the `id:<digits>` prefix of a queue file's name, and the first word-bounded
 * `id:<digits>` in a score-file line, as the evaluator's two regular expressions find them.
 */
module SeedId {
  import opened Wrappers
  import opened Strings

  /** `s` holds `id:` at position `i`. */
  predicate IdTagAt(s: string, i: nat) {
    i + 3 <= |s| && s[i] == 'i' && s[i + 1] == 'd' && s[i + 2] == ':'
  }

  /** `s` begins with `id:` and a digit. */
  predicate IdPrefixed(s: string) {
    IdTagAt(s, 0) && |s| > 3 && IsDigit(s[3])
  }

  /** `re.match(r"(id:\d+)")`: `id:` and the whole run of digits after it, at the start of `base`. */
  function LeadingId(base: string): (r: Result<string>)
    ensures r.Err? <==> !IdPrefixed(base)
    ensures r.Err? ==> r.error == ValueError
    ensures r.Ok? ==>
      var n := |r.value|;
      && n <= |base| && r.value == base[..n] && IdPrefixed(r.value)
      && (forall j :: 3 <= j < n ==> IsDigit(base[j]))
      && (n == |base| || !IsDigit(base[n]))
  {
    if IdPrefixed(base) then
      var d := DigitRun(base[3..]);
      assert forall j :: 3 <= j < 3 + d ==> base[j] == base[3..][j - 3];
      Ok(base[..3 + d])
    else Err(ValueError)
  }

  /** `normalize_afl_seed_id`: the leading id of the path's basename. */
  function NormalizeSeedId(name: string): Result<string> {
    LeadingId(Basename(name))
  }

  /** A match of `\bid:\d+\b` at position `i` of `s`: the number of its digits. */
  function IdAt(s: string, i: nat): (k: Option<nat>)
    ensures k.Some? ==> IdTagAt(s, i) && (i == 0 || !IsWordChar(s[i - 1]))
    ensures k.Some? ==> k.value > 0 && k.value == DigitRun(s[i + 3..]) && i + 3 + k.value <= |s|
    ensures k.Some? ==> i + 3 + k.value == |s| || !IsWordChar(s[i + 3 + k.value])
  {
    if IdTagAt(s, i) && (i == 0 || !IsWordChar(s[i - 1])) then
      var d := DigitRun(s[i + 3..]);
      if d > 0 && (i + 3 + d == |s| || !IsWordChar(s[i + 3 + d])) then Some(d) else None
    else None
  }

  /** `re.search` from position `i`: the first position holding a match. */
  function Search(s: string, i: nat): (r: Option<nat>)
    ensures r.Some? ==> i <= r.value < |s| && IdAt(s, r.value).Some?
    ensures forall j :: i <= j < |s| && (r.None? || j < r.value) ==> IdAt(s, j).None?
    decreases |s| - i
  {
    if i >= |s| then None
    else if IdAt(s, i).Some? then Some(i)
    else Search(s, i + 1)
  }

  /** `re.search(r"\bid:\d+\b")`: the first word-bounded `id:<digits>` in `base`. */
  function FirstId(base: string): (r: Result<string>)
    ensures r.Err? <==> Search(base, 0).None?
    ensures r.Err? ==> r.error == ValueError
    ensures r.Ok? ==>
      var i := Search(base, 0).value;
      && i + |r.value| <= |base| && r.value == base[i..i + |r.value|] && IdPrefixed(r.value)
      && forall j :: 3 <= j < |r.value| ==> IsDigit(r.value[j])
  {
    match Search(base, 0)
    case None => Err(ValueError)
    case Some(i) =>
      var d := IdAt(base, i).value;
      assert forall j :: i + 3 <= j < i + 3 + d ==> base[j] == base[i + 3..][j - i - 3];
      Ok(base[i..i + 3 + d])
  }

  /** `line.split(",", 1)[1]`: the text after the first comma, `None` when there is no comma. */
  function AfterComma(line: string): (r: Option<string>)
    ensures r.None? <==> ',' !in line
    ensures r.Some? ==> exists c :: 0 <= c < |line| && line[c] == ',' && ',' !in line[..c] && r.value == line[c + 1..]
  {
    var c := IndexOf(line, ',');
    if c == |line| then None
    else
      assert ',' !in line[..c];
      Some(line[c + 1..])
  }

  /**
   * `extract_afl_seed_id`: the first word-bounded id in the basename of the text after the
   * first comma; a line without a comma, or without such an id, raises `ValueError`.
   */
  function ExtractSeedId(line: string): (r: Result<string>)
    ensures AfterComma(line).None? ==> r == Err(ValueError)
    ensures AfterComma(line).Some? ==> r == FirstId(Basename(AfterComma(line).value))
  {
    match AfterComma(line)
    case None => Err(ValueError)
    case Some(rest) => FirstId(Basename(rest))
  }

  /** A leading id that ends at a non-word character is also the first id a search finds. */
  lemma FirstIdLeading(base: string)
    requires IdPrefixed(base)
    requires var n := 3 + DigitRun(base[3..]); n == |base| || !IsWordChar(base[n])
    ensures FirstId(base) == LeadingId(base)
  {
    assert base[0 + 3..] == base[3..];
    assert IdAt(base, 0).Some?;
  }

  /** The text after the first comma of `field,rest`, for a field without commas, is `rest`. */
  lemma AfterFirstComma(field: string, rest: string)
    requires ',' !in field
    ensures AfterComma(field + "," + rest) == Some(rest)
  {
    var line := field + "," + rest;
    assert forall j :: 0 <= j < |field| ==> line[j] == field[j];
    IndexOfFirst(line, ',', |field|);
    assert line[|field| + 1..] == rest;
  }

  /** On `field,path` with a comma-free field, the extracted id is the first id in the path's basename. */
  lemma ExtractAfterField(field: string, path: string)
    requires ',' !in field
    ensures ExtractSeedId(field + "," + path) == FirstId(Basename(path))
  {
    AfterFirstComma(field, path);
  }

  /**
   * The score file names a seed by the same id the snapshot stored: on a line whose first
   * field has no comma and whose seed's basename starts with `id:<digits>` followed by a
   * character that is not a word character, the two id functions agree (`base` names the
   * path's basename).
   */
  lemma ExtractAgreesWithNormalize(field: string, path: string, base: string)
    requires ',' !in field
    requires base == Basename(path)
    requires IdPrefixed(base)
    requires 3 + DigitRun(base[3..]) == |base| || !IsWordChar(base[3 + DigitRun(base[3..])])
    ensures ExtractSeedId(field + "," + path) == NormalizeSeedId(path)
  {
    ExtractAfterField(field, path);
    FirstIdLeading(base);
  }
}

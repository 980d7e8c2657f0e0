/**
 * Column-name normalisation: every header is stripped of surrounding
 * whitespace, then renamed through a fixed alias table. Row values are not
 * touched.
 */
module Columns {
  import opened Strings
  import opened Table

  /** The keys of the alias table: the raw header variants the data files use. */
  predicate IsAliasKey(name: string) {
    name in {"Orçamento(GND 3+4)", "IGC (Contínuo)", "IGC (Continuo)", "Ano "}
  }

  /**
   * `DataFrame.rename(columns=mapa)` for one label: each alias key becomes
   * its canonical name, every other label passes through.
   */
  function Rename(name: string): (r: string)
    ensures !IsAliasKey(name) ==> r == name
  {
    if name == "Orçamento(GND 3+4)" then "Orcamento"
    else if name == "IGC (Contínuo)" || name == "IGC (Continuo)" then "IGC"
    else if name == "Ano " then "Ano"
    else name
  }

  /** Strip first, then rename. */
  function NormalizeName(name: string): string {
    Rename(Strip(name))
  }

  function NormalizeHeader(header: seq<string>): (r: seq<string>)
    ensures |r| == |header|
  {
    seq(|header|, i requires 0 <= i < |header| => NormalizeName(header[i]))
  }

  /** The normalisation step applied to a whole table. */
  function Normalize(t: RawTable): (r: RawTable)
    ensures r.rows == t.rows
    ensures |r.header| == |t.header|
    ensures forall i :: 0 <= i < |t.header| ==> Trimmed(r.header[i])
    ensures forall i :: 0 <= i < |t.header| ==> !IsAliasKey(Strip(t.header[i])) ==> r.header[i] == Strip(t.header[i])
    ensures forall i :: 0 <= i < |t.header| ==>
              (r.header[i] == "Universidade" <==> Strip(t.header[i]) == "Universidade")
    ensures forall i :: 0 <= i < |t.header| ==>
              (r.header[i] == "Ano" <==> Strip(t.header[i]) == "Ano")
    ensures forall i :: 0 <= i < |t.header| ==>
              (r.header[i] == "IGC" <==> Strip(t.header[i]) in {"IGC", "IGC (Contínuo)", "IGC (Continuo)"})
    ensures forall i :: 0 <= i < |t.header| ==>
              (r.header[i] == "Orcamento" <==> Strip(t.header[i]) in {"Orcamento", "Orçamento(GND 3+4)"})
    ensures forall i :: 0 <= i < |t.header| ==> CanonicalName(t.header[i], r.header[i])
  {
    var h := NormalizeHeader(t.header);
    forall i | 0 <= i < |t.header| ensures Trimmed(h[i]) {
      NormalizedIsTrimmed(t.header[i]);
    }
    forall i | 0 <= i < |t.header| ensures CanonicalName(t.header[i], h[i]) {
      CanonicalSources(t.header[i]);
    }
    RawTable(h, t.rows)
  }

  /** The worked example: a data file's budget header becomes the canonical name. */
  lemma NormalizeExample(t: RawTable)
    requires t == RawTable(["Orçamento(GND 3+4)"], [])
    ensures Normalize(t).header == ["Orcamento"]
  {
    var budget := t.header[0];
    BudgetKeyIsTrimmed(budget);
    assert Strip(budget) in {"Orcamento", "Orçamento(GND 3+4)"};
    var r := Normalize(t);
    assert |r.header| == 1 && r.header[0] == "Orcamento";
  }


  lemma BudgetKeyIsTrimmed(budget: string)
    requires budget == "Orçamento(GND 3+4)"
    ensures Strip(budget) == budget
  {
    assert budget[0] == 'O' && budget[|budget| - 1] == ')';
    TrimmedIsFixed(budget);
  }


  /** The stripped raw labels that become the required column `name`. */
  function Sources(name: string): (r: set<string>)
    ensures name in r
  {
    if name == "IGC" then {"IGC", "IGC (Contínuo)", "IGC (Continuo)"}
    else if name == "Orcamento" then {"Orcamento", "Orçamento(GND 3+4)"}
    else {name}
  }

  /** A required column missing after normalisation has no raw label among its sources. */
  lemma AbsentAfterNormalize(t: RawTable, name: string)
    requires name in Required && name !in Normalize(t).header
    ensures forall i :: 0 <= i < |t.header| ==> Strip(t.header[i]) !in Sources(name)
  {
    var h := Normalize(t).header;
    forall i | 0 <= i < |t.header| ensures Strip(t.header[i]) !in Sources(name) {
      NotRenamedTo(t.header[i], h[i], name);
    }
  }

  lemma NotRenamedTo(raw: string, renamed: string, name: string)
    requires CanonicalName(raw, renamed) && name in Required && renamed != name
    ensures Strip(raw) !in Sources(name)
  {
    if name == "IGC" {
      assert Sources(name) == {"IGC", "IGC (Contínuo)", "IGC (Continuo)"};
    } else if name == "Orcamento" {
      assert Sources(name) == {"Orcamento", "Orçamento(GND 3+4)"};
    } else {
      assert Sources(name) == {name};
    }
  }

  /** Which stripped raw labels `renamed` can come from, for each required column. */
  predicate CanonicalName(raw: string, renamed: string) {
    && (renamed == "Universidade" <==> Strip(raw) == "Universidade")
    && (renamed == "Ano" <==> Strip(raw) == "Ano")
    && (renamed == "IGC" <==> Strip(raw) in {"IGC", "IGC (Contínuo)", "IGC (Continuo)"})
    && (renamed == "Orcamento" <==> Strip(raw) in {"Orcamento", "Orçamento(GND 3+4)"})
  }

  lemma NormalizedIsTrimmed(name: string)
    ensures Trimmed(NormalizeName(name))
  {
    var s := Strip(name);
    if IsAliasKey(s) {
      AliasTargetsAreFixed(s);
    } else {
      StripShape(name);
    }
  }

  /**
   * Because stripping runs first, a normalised header never equals the
   * alias key "Ano ": that entry of the table is never used.
   */
  lemma {:induction false} AnoKeyNeverMatches(name: string)
    ensures Strip(name) != "Ano "
  {
    StripShape(name);
  }

  /** A raw "Ano " header still becomes "Ano", by stripping alone. */
  lemma AnoWithTrailingSpace(name: string)
    requires name == "Ano "
    ensures NormalizeName(name) == "Ano"
    ensures Strip(name) == "Ano"
  {
    StripAno(name);
    assert !IsAliasKey("Ano");
    PlainNameIsStripped(name, "Ano");
  }


  /** A label that strips to a non-alias is normalised by stripping alone. */
  lemma PlainNameIsStripped(name: string, stripped: string)
    requires Strip(name) == stripped && !IsAliasKey(stripped)
    ensures NormalizeName(name) == stripped
  {
  }

  lemma StripAno(name: string)
    requires name == "Ano "
    ensures Strip(name) == "Ano"
  {
    assert !IsSpace(name[0]);
    assert TrimStart(name) == name;
    var init := name[..3];
    assert IsSpace(name[3]) && init == "Ano";
    assert TrimEnd(name) == TrimEnd(init);
    assert !IsSpace(init[2]);
    assert TrimEnd(init) == init;
  }


  /** Normalising an already normalised header changes nothing. */
  lemma {:induction false} NormalizeNameIdempotent(name: string)
    ensures NormalizeName(NormalizeName(name)) == NormalizeName(name)
  {
    var s := Strip(name);
    StripIdempotent(name);
    if IsAliasKey(s) {
      AliasTargetsAreFixed(s);
    }
  }

  /** Every alias target has no surrounding whitespace and is not itself an alias key. */
  lemma AliasTargetsAreFixed(key: string)
    requires IsAliasKey(key)
    ensures Trimmed(Rename(key)) && Strip(Rename(key)) == Rename(key) && !IsAliasKey(Rename(key))
  {
    var c := Rename(key);
    if key == "Orçamento(GND 3+4)" {
      assert c == "Orcamento" && c[0] == 'O' && c[|c| - 1] == 'o';
    } else if key == "IGC (Contínuo)" || key == "IGC (Continuo)" {
      assert c == "IGC" && c[0] == 'I' && c[|c| - 1] == 'C';
    } else {
      assert c == "Ano" && c[0] == 'A' && c[|c| - 1] == 'o';
    }
    assert |c| <= 9;
    TrimmedIsFixed(c);
  }

  /**
   * Which raw headers end up as each required column: only the stripped
   * canonical name or a stripped alias key; "Ano" is reached only from a
   * header that strips to "Ano".
   */
  lemma {:induction false} CanonicalSources(name: string)
    ensures NormalizeName(name) == "Universidade" <==> Strip(name) == "Universidade"
    ensures NormalizeName(name) == "Ano" <==> Strip(name) == "Ano"
    ensures NormalizeName(name) == "IGC" <==> Strip(name) in {"IGC", "IGC (Contínuo)", "IGC (Continuo)"}
    ensures NormalizeName(name) == "Orcamento" <==> Strip(name) in {"Orcamento", "Orçamento(GND 3+4)"}
  {
    AnoKeyNeverMatches(name);
  }
}

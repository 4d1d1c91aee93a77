/**
 * Equalities between concatenations of string pieces and the literal
 * strings they spell, for the worked examples in the Expressions module.
 * The solver compares string literals character by character, so each
 * equality is built up a few pieces at a time.
 */
module Literals {
  lemma Regroup(a: string, b: string, c: string, d: string, e: string, f: string, g: string, h: string, i: string)
    ensures a + b + (c + d + (e + f + (g + h + i))) == a + b + c + d + e + f + g + h + i
    ensures a + b + (c + d + (e + f + g) + h + i) == a + b + c + d + e + f + g + h + i
  {
  }

  lemma QueryHead()
    ensures "Animal" + ":" + "external_ids" + "." + "AnimalExternalIdentifier" + ":" == "Animal:external_ids.AnimalExternalIdentifier:"
  {
    FieldHead();
    ClassHead();
  }

  lemma FieldHead()
    ensures "Animal" + ":" + "external_ids" + "." == "Animal:external_ids."
  {
    assert "Animal" + ":" == "Animal:";
    assert "Animal:" + "external_ids" == "Animal:external_ids";
  }

  lemma ClassHead()
    ensures "Animal:external_ids." + "AnimalExternalIdentifier" + ":" == "Animal:external_ids.AnimalExternalIdentifier:"
  {
    assert "Animal:external_ids." + "AnimalExternalIdentifier" == "Animal:external_ids.AnimalExternalIdentifier";
  }

  lemma DatabaseTail()
    ensures "Animal:external_ids.AnimalExternalIdentifier:" + "database.ETH/AIC/cdb" == "Animal:external_ids.AnimalExternalIdentifier:database.ETH/AIC/cdb"
  {
  }

  lemma EscapedTail()
    ensures "Animal:external_ids.AnimalExternalIdentifier:" + "database.ETH/AIC/cdb" + "&#&" + "identifier.275511"
            == "Animal:external_ids.AnimalExternalIdentifier:database.ETH/AIC/cdb&#&identifier.275511"
  {
    DatabaseTail();
    EscapedIdentifier();
  }

  lemma EscapedIdentifier()
    ensures "Animal:external_ids.AnimalExternalIdentifier:database.ETH/AIC/cdb" + "&#&" + "identifier.275511"
            == "Animal:external_ids.AnimalExternalIdentifier:database.ETH/AIC/cdb&#&identifier.275511"
  {
    assert "Animal:external_ids.AnimalExternalIdentifier:database.ETH/AIC/cdb" + "&#&" == "Animal:external_ids.AnimalExternalIdentifier:database.ETH/AIC/cdb&#&";
  }

  lemma PlainTail()
    ensures "Animal:external_ids.AnimalExternalIdentifier:" + "database.ETH/AIC/cdb" + "&&" + "identifier.275511"
            == "Animal:external_ids.AnimalExternalIdentifier:database.ETH/AIC/cdb&&identifier.275511"
  {
    DatabaseTail();
    PlainIdentifier();
  }

  lemma PlainIdentifier()
    ensures "Animal:external_ids.AnimalExternalIdentifier:database.ETH/AIC/cdb" + "&&" + "identifier.275511"
            == "Animal:external_ids.AnimalExternalIdentifier:database.ETH/AIC/cdb&&identifier.275511"
  {
    assert "Animal:external_ids.AnimalExternalIdentifier:database.ETH/AIC/cdb" + "&&" == "Animal:external_ids.AnimalExternalIdentifier:database.ETH/AIC/cdb&&";
  }

  /** The query of the separator test with `&#&`, as the nested expression renders it. */
  lemma EscapedQuery()
    ensures "Animal" + ":" + ("external_ids" + "." + ("AnimalExternalIdentifier" + ":" + ("database.ETH/AIC/cdb" + "&#&" + "identifier.275511")))
            == "Animal:external_ids.AnimalExternalIdentifier:database.ETH/AIC/cdb&#&identifier.275511"
  {
    Regroup("Animal", ":", "external_ids", ".", "AnimalExternalIdentifier", ":", "database.ETH/AIC/cdb", "&#&", "identifier.275511");
    QueryHead();
    EscapedTail();
  }

  /** The query of the separator test with `&&`, as the two-condition expression renders it. */
  lemma PlainQuery()
    ensures "Animal" + ":" + ("external_ids" + "." + ("AnimalExternalIdentifier" + ":" + "database.ETH/AIC/cdb") + "&&" + "identifier.275511")
            == "Animal:external_ids.AnimalExternalIdentifier:database.ETH/AIC/cdb&&identifier.275511"
  {
    Regroup("Animal", ":", "external_ids", ".", "AnimalExternalIdentifier", ":", "database.ETH/AIC/cdb", "&&", "identifier.275511");
    QueryHead();
    PlainTail();
  }
}

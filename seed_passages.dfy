/**
 * The five passages the document table of the retrieval tool is seeded with
 * (initialize_db.py:22-26), and the character facts the example queries over
 * them need. They sit in a module of their own so that proofs reading their
 * characters see nothing else.
 */
module SeedPassages {

  // Each passage is written in pieces: the verifier reads characters out of
  // short literals only.
  const Seed0: string :=
    "The United " + "States-" + "Israel Free " + "Trade " + "Agreement "
    + "(FTA) is " + "the first " + "free trade " + "agreement " + "entered "
    + "into by the " + "United " + "States."

  const Seed1: string :=
    "Signed in " + "1985, it " + "aims to " + "eliminate " + "trade "
    + "barriers " + "and promote " + "economic " + "cooperation " + "between the "
    + "United " + "States and " + "Israel."

  const Seed2: string :=
    "Under the " + "agreement, " + "tariffs on " + "industrial " + "and "
    + "agricultural " + "goods " + "between the " + "two nations " + "are reduced "
    + "or " + "eliminated."

  const Seed3: string :=
    "The FTA has " + "provisions " + "to resolve " + "trade " + "disputes "
    + "and protect " + "intellectual " + "property " + "rights."

  const Seed4: string :=
    "The " + "agreement " + "has " + "significantly " + "increased "
    + "trade " + "volume, " + "benefiting " + "industries " + "like "
    + "technology, " + "agriculture, " + "and " + "pharmaceuticals."

  // No passage has a 'z'. The verifier reads this off the literals; one
  // lemma per passage keeps each proof small.
  lemma Seed0LacksZ()
    ensures 'z' !in Seed0
  {
  }

  lemma Seed1LacksZ()
    ensures 'z' !in Seed1
  {
  }

  lemma Seed2LacksZ()
    ensures 'z' !in Seed2
  {
  }

  lemma Seed3LacksZ()
    ensures 'z' !in Seed3
  {
  }

  lemma Seed4LacksZ()
    ensures 'z' !in Seed4
  {
  }
}

/** The fixed skill taxonomy that the skills and project extractors search for. */
module Taxonomy {
  /** Category name and its terms, in the order the table is written (a Python dict keeps it). */
  type Table = seq<(string, seq<string>)>

  const TECH_SKILLS: Table := [
    ("Big Data", ["hadoop", "spark", "hive", "kafka", "flink", "hbase",
                  "cassandra", "bigquery", "data lake", "data warehouse"]),
    ("Machine Learning", ["machine learning", "deep learning", "neural networks",
                          "tensorflow", "pytorch", "scikit-learn", "xgboost",
                          "computer vision", "nlp", "natural language processing"]),
    ("Programming", ["python", "java", "scala", "r", "c++", "sql"]),
    ("Cloud", ["aws", "azure", "gcp", "docker", "kubernetes"]),
    ("Data Engineering", ["etl", "data pipeline", "airflow", "data modeling"])
  ]

  /** The terms of every category, category by category: what `for category in TECH_SKILLS.values(): for tech in category` visits. */
  function AllTerms(table: Table): (r: seq<string>)
    ensures forall k, w :: 0 <= k < |table| && w in table[k].1 ==> w in r
    ensures forall w :: w in r ==> exists k :: 0 <= k < |table| && w in table[k].1
  {
    if table == [] then [] else table[0].1 + AllTerms(table[1..])
  }

  /** Visiting one more category appends its terms. */
  lemma {:induction false} AllTermsSnoc(table: Table, k: nat)
    requires k < |table|
    ensures AllTerms(table[..k + 1]) == AllTerms(table[..k]) + table[k].1
  {
    if k == 0 {
      assert table[..1][1..] == [];
    } else {
      assert table[..k + 1][1..] == table[1..][..k];
      assert table[..k][1..] == table[1..][..k - 1];
      AllTermsSnoc(table[1..], k - 1);
    }
  }
}

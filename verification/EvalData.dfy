/** The records of the evaluation harness. */
module EvalData {

  datatype GoldenRecord = GoldenRecord(query: string, expected: seq<string>, repo: string, language: string)

  datatype QueryResult = QueryResult(
    repo: string, query: string, language: string,
    ndcg10: real, recall10: real, recall20: real, mrr: real, latencyMs: real,
    retries: int, error: string)

  datatype Metric = Ndcg10 | Recall10 | Recall20 | Mrr | Latency

  function Raw(r: QueryResult, m: Metric): real
  {
    match m
    case Ndcg10 => r.ndcg10
    case Recall10 => r.recall10
    case Recall20 => r.recall20
    case Mrr => r.mrr
    case Latency => r.latencyMs
  }
}

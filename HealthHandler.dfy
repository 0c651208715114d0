/**
 * HealthHandler: liveness and readiness probes. The two dependency pings are
 * inputs: `postgresUp` is false exactly when PingPostgres returns an error,
 * `redisUp` likewise for PingRedis.
 */
module HealthHandler {
  import opened Http

  const JsonHeaders := map["Content-Type" := "application/json"]

  /** GET /health: always `{"status":"ok"}` as JSON, with the implicit 200. */
  function Liveness(): (ops: seq<WriterOp>)
    ensures Replay(ops) == Response(StatusOK, JsonHeaders, [Json(map["status" := "ok"])])
  {
    var ops := [SetHeader("Content-Type", "application/json"), Write(Json(map["status" := "ok"]))];
    assert ops[1..] == [ops[1]];
    assert Run(Fresh, ops) == Run(Step(Fresh, ops[0]), [ops[1]]);
    ops
  }

  /**
   * GET /health/ready. Each dependency's field is "ok" or "error" by its own
   * ping alone; the overall status is "ok" with 200 when both are "ok", and
   * "degraded" with 503 otherwise. The JSON content type is set before the
   * status is written, so the client receives it.
   */
  method Readiness(postgresUp: bool, redisUp: bool) returns (ops: seq<WriterOp>)
    ensures Replay(ops).headers == JsonHeaders
    ensures Replay(ops).status == (if postgresUp && redisUp then StatusOK else StatusServiceUnavailable)
    ensures |Replay(ops).body| == 1 && Replay(ops).body[0].Json?
    ensures var fields := Replay(ops).body[0].fields;
            && fields.Keys == {"status", "postgres", "redis"}
            && fields["postgres"] == (if postgresUp then "ok" else "error")
            && fields["redis"] == (if redisUp then "ok" else "error")
            && (fields["status"] == "ok" <==> fields["postgres"] == "ok" && fields["redis"] == "ok")
            && (fields["status"] == "ok" || fields["status"] == "degraded")
            && (Replay(ops).status == StatusOK <==> fields["status"] == "ok")
  {
    var headers := [SetHeader("Content-Type", "application/json")];

    var pgStatus := "ok";
    if !postgresUp {
      pgStatus := "error";
    }

    var redisStatus := "ok";
    if !redisUp {
      redisStatus := "error";
    }

    var status := "ok";
    var code := StatusOK;
    if pgStatus != "ok" || redisStatus != "ok" {
      status := "degraded";
      code := StatusServiceUnavailable;
    }

    var payload := Json(map["status" := status, "postgres" := pgStatus, "redis" := redisStatus]);
    ops := headers + [WriteHeader(code), Write(payload)];
    ReplayHeadersStatusBody(headers, code, payload);
    assert Run(Fresh, headers) == Run(Step(Fresh, headers[0]), headers[1..]);
  }
}

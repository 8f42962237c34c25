/** The planned step shared by the plan sorter and by the trust loop (internal/decision/decision.go). */
module Plan {

  datatype PlannedStep = PlannedStep(
    toolName: string,
    arguments: map<string, string>,
    expectedOutcome: string,
    requiresConfirmation: bool,
    depends: seq<string>,
    rationale: string,
    fallback: string)
}

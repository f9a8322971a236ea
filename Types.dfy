/** The records exchanged between the service and the components. */
module Types {
  import opened Wrappers

  /** The `web` part of a citation: both fields may be missing. */
  datatype WebSource = WebSource(uri: Option<string>, title: Option<string>)

  /** A citation returned with the model's answer; its `web` part may be missing. */
  datatype GroundingChunk = GroundingChunk(web: Option<WebSource>)

  /** The finished report: the model's markdown text and every citation it returned. */
  datatype ProspectReport = ProspectReport(text: string, groundingLinks: seq<GroundingChunk>)

  /** What the form submits. */
  datatype ProspectingFormInputs = ProspectingFormInputs(
    companyOrIndustry: string,
    focusArea: string,
    additionalKeywords: Option<string>)

  /** JavaScript truthiness of an optional string: present and not empty. */
  predicate Truthy(s: Option<string>) {
    s.Some? && s.value != ""
  }
}

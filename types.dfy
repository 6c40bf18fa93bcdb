/** The shared records and enumerations of types.ts. */
module Types {

  /** The analysis flow's status. */
  datatype AnalysisStatus = IDLE | ANALYZING | COMPLETED | ERROR

  /** The image generation flow's status. */
  datatype GenerationStatus = IDLE | GENERATING | COMPLETED | ERROR

  /** An uploaded picture: the data URL shown as a preview, the base64
      payload sent to the models, and its MIME type. The browser `File`
      handle is not part of this model. */
  datatype ImageFile = ImageFile(previewUrl: string, base64: string, mimeType: string)
}

/** The literal text of the analysis instruction of
    services/geminiService.ts, cut where values are interpolated into it. */
module InstructionTemplate {

  /** The instruction's fixed text: `opening` comes before the context
      clause, `format` between the clause and the separator, and the
      language is written between consecutive `scriptParts`. */
  datatype Template = Template(opening: string, format: string, scriptParts: seq<string>)

  const TEMPLATE: Template := Template(
    // before the context clause
    "\n"
    + "    You are an expert Commercial Photographer, Copywriter, and AI Prompt Engineer.\n"
    + "    \n"
    + "    OBJECTIVE:\n"
    + "    1. Analyze the uploaded product image in extreme detail.\n"
    + "    2. Generate a \"3x3 grid product showcase\" image prompt.\n"
    + "    3. Generate a compelling 30-second Voice Over (VO) script that matches the visual flow.\n"
    + "    \n"
    + "    ",
    // after the context clause, up to the separator
    "\n"
    + "\n"
    + "    CRITICAL INSTRUCTION FOR PANELS:\n"
    + "    Do not use generic panel descriptions. You must create 9 DISTINCT panel descriptions that are specifically tailored to showcase the unique features of THIS product.\n"
    + "    \n"
    + "    REQUIRED OUTPUT FORMAT (Maintain this structure exactly with the separator):\n"
    + "\n"
    + "    Single image, vertical 9:16, 3x3 grid (9 panels).\n"
    + "    Use the exact same background as the reference image: [Insert your analysis of the background].\n"
    + "    Same model (if present), same facial features and appearance.\n"
    + "    Same outfit and accessories: [Insert your analysis of the outfit, or \"N/A\" if no model].\n"
    + "    Same product: [Insert your analysis of the product]. No changes.\n"
    + "\n"
    + "    Panel 1: [Establishing shot]\n"
    + "    Panel 2: [Detail/Texture]\n"
    + "    Panel 3: [Side profile]\n"
    + "    Panel 4: [In use/Interaction]\n"
    + "    Panel 5: [Lifestyle/Relaxed]\n"
    + "    Panel 6: [Top-down/Different detail]\n"
    + "    Panel 7: [3/4 Angle]\n"
    + "    Panel 8: [Quality/Finish]\n"
    + "    Panel 9: [Flexibility/Usability]\n"
    + "\n"
    + "    Lighting must be soft and even, commercial studio style.\n"
    + "    \n"
    + "    ",
    // after the separator, around each `${language}`
    [
      "\n"
      + "    \n"
      + "    CRITICAL: The Voice Over Script MUST be written in ",
      ".\n"
      + "    \n"
      + "    **Language:** ",
      "\n"
      + "    **Title:** [Catchy Title in ",
      "]\n"
      + "    **Tone:** [Tone based on product, e.g., Energetic, Luxurious, Calm]\n"
      + "    **Duration:** 30 Seconds\n"
      + "\n"
      + "    **Script:**\n"
      + "    (0:00-0:05) [Hook]: [Script line in ",
      "...]\n"
      + "    (0:05-0:15) [Key Features]: [Script line in ",
      "...]\n"
      + "    (0:15-0:25) [Benefit/Emotion]: [Script line in ",
      "...]\n"
      + "    (0:25-0:30) [Call to Action]: [Script line in ",
      "...]\n"
      + "    "
    ])
}

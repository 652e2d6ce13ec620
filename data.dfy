/** The seed catalog: the five resources the application ships with. */
module Data {
  import opened Types

  const Mmlu := ResearchItem(
    "mmlu",
    "MMLU: Measuring Massive Multitask Language Understanding",
    ["Dan Hendrycks", "Collin Burns", "Saurav Kadavath", "et al."],
    2021, Dataset, General,
    "A benchmark designed to measure knowledge acquired during pretraining by evaluating models across 57 subjects such as STEM, the humanities, the social sciences, and more.",
    "https://arxiv.org/abs/2009.03300",
    Some("https://github.com/hendrycks/test"),
    ["Benchmark", "Knowledge", "STEM"],
    Some("15,908 questions"),
    Some("Multiple-choice questions across 57 subjects spanning various difficulty levels from elementary to professional."),
    Some("General Knowledge / STEM / Humanities"),
    Some(4200),
    Some([RelatedPaper("GPQA: A Graduate-Level Google-Proof Q&A Benchmark", "https://arxiv.org/abs/2311.12022"),
          RelatedPaper("ARC: AI2 Reasoning Challenge", "https://arxiv.org/abs/1803.05457")]))

  const Helm := ResearchItem(
    "helm",
    "Holistic Evaluation of Language Models (HELM)",
    ["Percy Liang", "Rishi Bommasani", "Tony Lee", "et al."],
    2022, Paper, General,
    "A comprehensive framework to evaluate language models across a diverse set of scenarios and metrics, providing a holistic view of model performance.",
    "https://arxiv.org/abs/2211.09110",
    Some("https://crfm.stanford.edu/helm/latest/"),
    ["Framework", "Holistic", "Benchmarking"],
    None,
    Some("Establishing a top-down taxonomy of 16 scenarios and 7 metrics (accuracy, calibration, robustness, fairness, bias, toxicity, and efficiency)."),
    Some("Model Evaluation Frameworks"),
    Some(850),
    Some([RelatedPaper("Evaluating Large Language Models: A Comprehensive Survey", "https://arxiv.org/abs/2307.03109")]))

  const Gsm8k := ResearchItem(
    "gsm8k",
    "GSM8K: Grade School Math 8K",
    ["Karl Cobbe", "Vineet Kosaraju", "Mohammad Bavarian", "et al."],
    2021, Dataset, Math,
    "A dataset of 8.5K high quality grade school math word problems. Solving these requires multi-step reasoning.",
    "https://arxiv.org/abs/2110.14168",
    Some("https://github.com/openai/grade-school-math"),
    ["Math", "Reasoning", "Chain-of-Thought"],
    Some("8,500 problems"),
    Some("Crowdsourced grade school math problems that require multi-step reasoning to solve, specifically designed to test Chain-of-Thought capabilities."),
    Some("Mathematical Reasoning"),
    Some(1200),
    Some([RelatedPaper("Training Verifiers to Solve Math Word Problems", "https://arxiv.org/abs/2110.14168")]))

  const HumanEval := ResearchItem(
    "human-eval",
    "HumanEval: Evaluating Large Language Models Trained on Code",
    ["Mark Chen", "Jerry Tworek", "Heewoo Jun", "et al."],
    2021, Dataset, Coding,
    "A dataset released by OpenAI for evaluating code generation capabilities, specifically measuring Python code completion performance.",
    "https://arxiv.org/abs/2107.03374",
    Some("https://github.com/openai/human-eval"),
    ["Coding", "Python", "Synthesis"],
    Some("164 problems"),
    Some("164 handwritten Python programming problems with unit tests to measure functional correctness via pass@k metric."),
    Some("Software Engineering / Code Generation"),
    Some(3100),
    Some([RelatedPaper("MBPP: Mostly Basic Python Problems", "https://arxiv.org/abs/2108.07732")]))

  const TruthfulQa := ResearchItem(
    "truthfulqa",
    "TruthfulQA: Measuring How Models Mimic Human Falsehoods",
    ["Stephanie Lin", "Jacob Hilton", "Owain Evans"],
    2022, Dataset, Safety,
    "A benchmark to measure whether a language model is truthful in generating answers to questions, specifically targeting common human misconceptions.",
    "https://arxiv.org/abs/2109.07958",
    Some("https://github.com/sylinrl/TruthfulQA"),
    ["Safety", "Hallucination", "Truthfulness"],
    Some("817 questions"),
    Some("Adversarially constructed questions spanning 38 categories that test for false beliefs and common misconceptions."),
    Some("AI Safety / Fact-checking"),
    Some(950),
    Some([RelatedPaper("HaluEval: A Large-Scale Hallucination Evaluation Benchmark", "https://arxiv.org/abs/2305.11747")]))

  /** `RESEARCH_ITEMS`, in the order the catalog lists them. */
  const ResearchItems: seq<ResearchItem> := [Mmlu, Helm, Gsm8k, HumanEval, TruthfulQa]

  function Ids(items: seq<ResearchItem>): (r: seq<string>)
    ensures |r| == |items| && forall i :: 0 <= i < |items| ==> r[i] == items[i].id
  {
    if items == [] then [] else [items[0].id] + Ids(items[1..])
  }

  /** The seed ids, in order, and no id occurs twice. */
  lemma SeedIds()
    ensures Ids(ResearchItems) == ["mmlu", "helm", "gsm8k", "human-eval", "truthfulqa"]
    ensures forall i, j :: 0 <= i < j < |ResearchItems| ==> ResearchItems[i].id != ResearchItems[j].id
  {
    var ids := Ids(ResearchItems);
    assert ids[0] == "mmlu" && ids[1] == "helm" && ids[2] == "gsm8k";
    assert ids[3] == "human-eval" && ids[4] == "truthfulqa";
    assert ids == ["mmlu", "helm", "gsm8k", "human-eval", "truthfulqa"];
    DistinctIds(ids);
  }

  lemma DistinctIds(ids: seq<string>)
    requires ids == ["mmlu", "helm", "gsm8k", "human-eval", "truthfulqa"]
    ensures forall i, j :: 0 <= i < j < |ids| ==> ids[i] != ids[j]
  {
    assert ids[0][0] == 'm' && ids[1][0] == 'h' && ids[2][0] == 'g' && ids[3][0] == 'h' && ids[4][0] == 't';
    assert |ids[1]| != |ids[3]|;
  }

  /** Every seed entry names at least one author. */
  lemma SeedAuthorsNonEmpty()
    ensures forall i :: 0 <= i < |ResearchItems| ==> ResearchItems[i].authors != []
  {
  }

  /** HELM is the only paper; each dataset states its size. */
  lemma SeedKinds()
    ensures forall i :: 0 <= i < |ResearchItems| ==>
      (ResearchItems[i].resourceType == Paper <==> ResearchItems[i] == Helm)
    ensures forall i :: 0 <= i < |ResearchItems| && ResearchItems[i].resourceType == Dataset ==>
      ResearchItems[i].itemCount.Some?
  {
  }
}

/** The service settings the modelled code reads (app/core/config.py). */
module Config {

  /** Token budget of one summarisation chunk (about four characters per token). */
  const CHUNK_SIZE: nat := 1500

  /** Largest accepted PDF download, in mebibytes. */
  const MAX_PDF_SIZE_MB: nat := 50

  /** Longest extracted text handed back, in characters. */
  const MAX_TEXT_LENGTH: nat := 1000000

  /** Hugging Face model names of the English summariser, full and small. */
  const EN_SUMMARIZER_MODEL: string := "facebook/bart-large-cnn"
  const EN_SUMMARIZER_MODEL_SMALL: string := "sshleifer/distilbart-cnn-12-6"

  /** Hugging Face model name of the Chinese summariser. */
  const ZH_SUMMARIZER_MODEL: string := "csebuetnlp/mT5_multilingual_XLSum"
}

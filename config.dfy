/** The settings of `config/config.py` that the modelled code reads. The
    sentiment thresholds are the exact decimals 0.6 and 0.4 (Python holds the
    nearest binary floats). */
module Config {

  // DOUBAN_CONFIG: the comment-page templates, split at their `{}` hole
  const MovieCommentsPrefix: string := "https://movie.douban.com/subject/"
  const BookCommentsPrefix: string := "https://book.douban.com/subject/"
  const CommentsSuffix: string := "/comments"

  // CRAWLER_CONFIG
  const MaxComments: nat := 1000

  // TEXT_ANALYSIS_CONFIG
  const MinWordLength: nat := 2
  const MaxWordLength: nat := 10

  // WORDCLOUD_CONFIG
  const WordcloudWidth: int := 1200
  const WordcloudHeight: int := 800
  const WordcloudBackground: string := "white"
  const WordcloudMaxWords: int := 100
  const WordcloudMaxFontSize: int := 100
  const WordcloudMinFontSize: int := 10
  const WordcloudColormap: string := "viridis"

  // SENTIMENT_CONFIG
  const PositiveThreshold: real := 0.6
  const NegativeThreshold: real := 0.4

  // KNOWLEDGE_GRAPH_CONFIG
  const MinCooccurrence: nat := 3
  const NodeSizeMultiplier: nat := 100
  const EdgeWidthMultiplier: nat := 2
}
